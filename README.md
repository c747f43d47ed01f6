# Catch the Lion: the game's turn, selection and capture state machine

This project models the core of `Game` in `src/Game.ts` of a two-player
animal-chess game ("catch the lion") and proves properties of it in Dafny.
Each click on the board either selects one of the mover's own pieces or,
when a cell is already selected, moves the selected piece to the clicked
cell. A captured piece goes to a dead zone. Capturing a `Lion` ends the
game, and every click after that is ignored.

Files:

- `pieces.dfy`, module `Pieces`: the two sides (`PlayerType`), pieces (an
  owner side plus an `isLion` tag standing for `instanceof Lion`), and an
  `Option` type standing for the source's `null`/`undefined`.
- `board.dfy`, module `Board`: the collaborators `Game` uses, reduced to
  what `Game` touches. `Player` has a fixed side. `Cell` has an optional
  piece and an `active` highlight flag. `DeadZone` is a sequence of
  pieces, and `put` appends to it.
- `rules.dfy`, module `Rules`: the state machine on values. It defines the
  observable state (turn, side to move, phase, selection, highlighted
  cells, both dead zones). It has one function per step: `Select`,
  `Move`, `ChangeTurn` and `Dispatch`, the click handler. `Run` handles a
  sequence of clicks. `Inv` is the invariant of every reachable game.
- `properties.dfy`, module `Properties`: lemmas about whole click
  sequences.
- `game.dfy`, module `LionGame`: the class `Game`, whose fields change in
  place. Each method is proved to change `Abs()`, the game seen as a
  `Rules.State`, exactly as the matching `Rules` function says.

The click handler at `src/Game.ts:29-56` becomes the method `Dispatch`. Its
argument is the cell that the click already resolved to. `null` means the
click hit neither a cell nor a piece (`src/Game.ts:34-42`). The piece that
the selected piece's `move(...).getKilled()` reports (`src/Game.ts:72`)
comes in as the parameter `killed`. The piece classes are not part of
this model.

`move` and `changeTurn` use `selectedCell` without checking it
(`src/Game.ts:71-72,96`), so the model's `Move` and `ChangeTurn` require a
selection, and `Move` also requires a piece on the selected cell, for the
`getPiece().move(...)` call at `src/Game.ts:72`. `Select` does not require the cell to hold one of the mover's
pieces, because the code does not check for one; `Dispatch` only selects
such cells.

Two definitions in `Rules` carry no contract of their own and are stated
through the members that use them. `Rules.IsOwnPiece` is the ownership
test of `src/Game.ts:89`, the same test as `LionGame.Game.IsCurrentUserPiece`.
`Rules.Run` is the listener called once per click in order; the lemmas in
`Properties` state what it does.

## Model

| member | source | states |
|---|---|---|
| `Board.Player.constructor` | src/Game.ts:13-14 | each player is created with its side, which never changes |
| `Board.Cell.constructor` | src/Game.ts:16 | a board cell starts with the piece it is given and without a highlight |
| `Pieces.Opponent` | src/Game.ts:103 | the side handed the move is always the other of the two sides |
| `Board.Cell.Activate` | src/Game.ts:66 | `cell.active()` sets the cell's highlight and changes nothing else |
| `Board.Cell.Deactivate` | src/Game.ts:61 | `deactive()` clears the cell's highlight and changes nothing else |
| `Board.DeadZone.constructor` | src/Game.ts:17-18 | a new dead zone is empty and labelled with its side |
| `Board.DeadZone.Put` | src/Game.ts:77-79 | `put` appends the captured piece at the end of the zone |
| `Rules.Select` | src/Game.ts:59-68 | the cell becomes the selection and is highlighted; a different previous selection loses its highlight; no other cell gains one, so when the only highlight, if any, is on the previous selection, exactly this cell is highlighted after; turn, side, phase and dead zones are unchanged; the invariant is kept |
| `Rules.Move` | src/Game.ts:70-86 | the previous selection loses its highlight and the target becomes the selection; a killed UPPER piece is appended to the lower dead zone and any other killed piece to the upper one, with the other zone unchanged; no kill leaves both unchanged; the phase becomes END exactly when the killed piece is a Lion and is otherwise unchanged; turn and side to move never change; the invariant is kept |
| `Rules.ChangeTurn` | src/Game.ts:95-107 | the selection is always cleared and loses its highlight; at END, turn and side to move are unchanged; otherwise the turn rises by exactly 1 and the other side is to move; phase and dead zones are unchanged; the invariant is kept |
| `Rules.Dispatch` | src/Game.ts:29-56 | at END, or when the click resolves to no cell, nothing changes; a click on the mover's own piece only selects it; with no selection, any other click changes nothing; otherwise the result is a move followed by a turn change; the turn rises by at most 1, and by 1 exactly when a move happens that kills no Lion; END is never left; the invariant is kept |
| `LionGame.Game.constructor` | src/Game.ts:8-25 | a new game is at turn 0 and STARTED, the upper player moves first, nothing is selected or highlighted, both dead zones are new and empty, and the invariant holds |
| `LionGame.Game.IsCurrentUserPiece` | src/Game.ts:88-90 | an absent or empty cell never counts as the mover's; an occupied cell counts exactly when its piece belongs to the current player's side; what this decides (select or move) is stated by `LionGame.Game.Dispatch` |
| `LionGame.Game.Select` | src/Game.ts:59-68 | updates the fields as `Rules.Select` says; afterwards the chosen cell is selected and highlighted, no other board cell is highlighted, and no cell's piece changes |
| `LionGame.Game.Move` | src/Game.ts:70-86 | updates the fields and dead zones as `Rules.Move` says; the old selected cell is no longer highlighted, the selection is the target, and turn and current player are untouched |
| `LionGame.Game.ChangeTurn` | src/Game.ts:95-107 | updates the fields as `Rules.ChangeTurn` says; the selection is null and the old selected cell is not highlighted; no other cell's highlight and no cell's piece changes; at END turn and current player stay; otherwise the turn rises by 1 and the current player swaps between the two player objects |
| `LionGame.Game.Dispatch` | src/Game.ts:29-56 | updates the game as `Rules.Dispatch` says; at END nothing at all changes; when `IsCurrentUserPiece` holds for the clicked cell it only selects and highlights it, leaving turn, phase, player and dead zones as they were; otherwise, with a cell selected, it moves and changes the turn: the selection is cleared, the game ends exactly when a Lion is killed, and if not the turn rises by 1 and the other player moves; a null click, or a click on a cell that is not the mover's with nothing selected, changes nothing; only a move can change what the cells hold; the turn rises by at most 1; END is never left; between clicks a selected cell holds a piece of the side to move |
| `Properties.InitialInv` | src/Game.ts:8-25 | a fresh game starts at turn 0, STARTED, upper side to move, and satisfies the invariant |
| `Properties.RunAppend` | src/Game.ts:29-56 | handling clicks in two batches is the same as handling them all in order |
| `Properties.EndIsAbsorbing` | src/Game.ts:30-32 | from an ended game, no sequence of clicks changes anything |
| `Properties.EndIsNeverLeft` | src/Game.ts:82-84 | once a click ends the game, all later clicks leave the state as that click left it |
| `Properties.TurnBounds` | src/Game.ts:102 | over any sequence of clicks the turn never decreases and rises by at most the number of clicks |
| `Properties.DeadZonesOnlyGrow` | src/Game.ts:75-80 | each dead zone only grows at its end; captured pieces never leave it |
| `Properties.RunKeepsInv` | src/Game.ts:29-56 | every sequence of clicks keeps the invariant |
| `Properties.ReachableInv` | src/Game.ts:59-107 | in every game reached from a fresh one, at most one cell is highlighted and it is the selected one; the upper side moves on even turns and the lower side on odd ones; the lower dead zone holds only UPPER pieces and the upper zone only LOWER ones; the game has ended exactly when a Lion has been captured |
| `Properties.ChangeTurnTwiceRestoresPlayer` | src/Game.ts:102-103 | two turn changes in a running game give the move back to the same side, two turns later |

## Left out

- DOM plumbing (`src/Game.ts:10,21-23,29,34-42`): querying the page, attaching the board element and the click listener, and turning the event target into a cell element. `Dispatch` takes the resolved cell, with null for a click on neither a cell nor a piece.
- Rendering (`renderInfo`, `board.render()`, `cell.render()`, `src/Game.ts:26-27,62,67,91-93,100,104,106`): display only.
- `board.map.get` (`src/Game.ts:44`) is assumed to resolve every cell element to one of the board's cells, so `Dispatch` requires a non-null cell to be a board cell. A lookup that yielded `undefined` while a cell was selected would throw in `Piece.move` or, failing that, at `this.selectedCell.deactive()` in `changeTurn` (`src/Game.ts:96`). The same lookup with nothing selected is a harmless no-op (`src/Game.ts:46,51`). The requires excludes both cases, and neither is modelled.
- `Piece.move` (`src/Game.ts:72`) belongs to the piece classes, which are not part of this model. It comes in only as the piece it reports killed. Nothing ties `killed` to the target cell's occupant, and the model does not say where pieces end up.
- LionGame.Game.Move: says nothing about the pieces on the cells afterwards, because relocating them happens inside `Piece.move`.
- Building the board and placing its initial pieces (`new Board(...)`, `src/Game.ts:16`) is done by the `Board` class, which is not part of this model. The constructor takes the board's cells, none of them highlighted.
- The dead zones' `'upper'`/`'lower'` labels are modelled as sides, not strings.
