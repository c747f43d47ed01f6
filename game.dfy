/** The `Game` class: turn, selection and capture bookkeeping of one game,
    updated in place by clicks on the board. */
module LionGame {
  import opened Pieces
  import opened Board
  import Rules

  class Game {
    var selectedCell: Cell?
    var turn: nat
    var currentPlayer: Player
    var state: Rules.Phase

    const upperPlayer: Player
    const lowerPlayer: Player
    /** The cells of the board; the click handler only ever hands over these. */
    const cells: set<Cell>
    const upperDeadZone: DeadZone
    const lowerDeadZone: DeadZone

    /** The game as a value, in the terms of `Rules`. */
    ghost function Abs(): Rules.State<Cell>
      reads this, cells, upperDeadZone, lowerDeadZone
    {
      var selection: Option<Cell> := if selectedCell == null then None else Some(selectedCell as Cell);
      Rules.State(turn, currentPlayer.playerType, state, selection,
        (set c | c in cells && c.active),
        upperDeadZone.pieces, lowerDeadZone.pieces)
    }

    /** The fixed players and dead zones, the current player being one of the
        two, the selection on the board, and the game invariant. */
    ghost predicate Valid()
      reads this, cells, upperDeadZone, lowerDeadZone
    {
      upperPlayer.playerType == Upper && lowerPlayer.playerType == Lower &&
      (currentPlayer == upperPlayer || currentPlayer == lowerPlayer) &&
      upperDeadZone != lowerDeadZone &&
      upperDeadZone.side == Upper && lowerDeadZone.side == Lower &&
      (selectedCell != null ==> selectedCell in cells) &&
      Rules.Inv(Abs())
    }

    /** Between two clicks: valid, and a selected cell holds a piece of the
        side to move. */
    ghost predicate Ready()
      reads this, cells, upperDeadZone, lowerDeadZone
    {
      Valid() && (selectedCell != null ==> IsCurrentUserPiece(selectedCell))
    }

    /** A new game on a board whose cells are `cells`, none of them
        highlighted. */
    constructor (cells: set<Cell>)
      requires forall c :: c in cells ==> !c.active
      ensures Ready()
      ensures Abs() == Rules.Initial()
      ensures turn == 0 && state == Rules.Started && currentPlayer == upperPlayer && selectedCell == null
      ensures this.cells == cells
      ensures fresh(upperDeadZone) && fresh(lowerDeadZone)
    {
      var upper := new Player(Upper);
      var lower := new Player(Lower);
      upperPlayer, lowerPlayer := upper, lower;
      this.cells := cells;
      upperDeadZone := new DeadZone(Upper);
      lowerDeadZone := new DeadZone(Lower);
      selectedCell := null;
      turn := 0;
      state := Rules.Started;
      currentPlayer := upper;
      new;
      assert (set c | c in cells && c.active) == {};
    }

    /** Whether a click on `cell` selects rather than moves: the cell is
        present and holds a piece of the side to move. This is the test
        `Rules.IsOwnPiece` applied to the current player's side; the choice
        it makes is stated by `Dispatch`. An absent or empty cell is never
        selected, and an occupied one exactly when its piece is the mover's. */
    function IsCurrentUserPiece(cell: Cell?): (r: bool)
      reads this, cell
      ensures cell == null || cell.piece.None? ==> !r
      ensures cell != null && cell.piece.Some? ==> (r <==> cell.piece.value.ownerType == currentPlayer.playerType)
    {
      cell != null && Rules.IsOwnPiece(currentPlayer.playerType, cell.piece)
    }

    /** Moves the highlight to `cell` and records it as the selection. */
    method Select(cell: Cell)
      requires Valid() && cell in cells
      modifies this, cells
      ensures Valid()
      ensures Abs() == Rules.Select(old(Abs()), cell)
      ensures selectedCell == cell && cell.active
      ensures forall c :: c in cells && c != cell ==> !c.active
      ensures forall c :: c in cells ==> c.piece == old(c.piece)
      ensures currentPlayer == old(currentPlayer)
    {
      ghost var before := Abs();
      if selectedCell != null {
        selectedCell.Deactivate();
      }
      selectedCell := cell;
      cell.Activate();
      assert Abs() == Rules.Select(before, cell);
      forall c | c in cells && c != cell ensures !c.active {
        assert c !in Abs().highlighted;
      }
    }

    /** Asks the selected piece to move to `cell`; `killed` is the piece that
        move reports it captured. A killed upper piece goes to the lower dead
        zone and any other killed piece to the upper one, and a killed Lion
        ends the game. The selection then points at `cell`. Where the pieces
        themselves end up is left to the piece and not modelled. */
    method Move(cell: Cell, killed: Option<Piece>)
      requires Valid() && cell in cells
      requires selectedCell != null && selectedCell.piece.Some?
      modifies this, cells, upperDeadZone, lowerDeadZone
      ensures Valid()
      ensures Abs() == Rules.Move(old(Abs()), cell, killed)
      ensures selectedCell == cell && !old(selectedCell).active
      ensures turn == old(turn) && currentPlayer == old(currentPlayer)
    {
      ghost var before := Abs();
      selectedCell.Deactivate();
      selectedCell := cell;
      if killed.Some? {
        var k := killed.value;
        if k.ownerType == Upper {
          lowerDeadZone.Put(k);
        } else {
          upperDeadZone.Put(k);
        }
        if k.isLion {
          state := Rules.End;
        }
      }
      assert Abs() == Rules.Move(before, cell, killed);
    }

    /** Clears the selection; unless the game has ended, advances the turn
        counter and hands the move to the other player. */
    method ChangeTurn()
      requires Valid() && selectedCell != null
      modifies this, cells
      ensures Valid()
      ensures Abs() == Rules.ChangeTurn(old(Abs()))
      ensures selectedCell == null && !old(selectedCell).active
      ensures forall c :: c in cells ==> c.piece == old(c.piece)
      ensures forall c :: c in cells && c != old(selectedCell) ==> c.active == old(c.active)
      ensures state == old(state)
      ensures old(state) == Rules.End ==> turn == old(turn) && currentPlayer == old(currentPlayer)
      ensures old(state) == Rules.Started ==>
                turn == old(turn) + 1 &&
                currentPlayer == (if old(currentPlayer) == lowerPlayer then upperPlayer else lowerPlayer)
    {
      ghost var before := Abs();
      selectedCell.Deactivate();
      selectedCell := null;
      if state != Rules.End {
        turn := turn + 1;
        currentPlayer := if currentPlayer == lowerPlayer then upperPlayer else lowerPlayer;
      }
      assert Abs() == Rules.ChangeTurn(before);
    }

    /** The click as `Rules` sees it: the cell and the piece it holds. */
    ghost function ClickOn(cell: Cell?): Option<Rules.Click<Cell>>
      reads cell
    {
      if cell == null then None else Some(Rules.Click(cell as Cell, cell.piece))
    }

    /** Handles one click that resolved to `cell` (null when the click hit
        neither a cell nor a piece). `killed` is what the selected piece's
        move would report, should a move happen. */
    method Dispatch(cell: Cell?, killed: Option<Piece>)
      requires Ready() && (cell != null ==> cell in cells)
      modifies this, cells, upperDeadZone, lowerDeadZone
      ensures Ready()
      ensures Abs() == Rules.Dispatch(old(Abs()), old(ClickOn(cell)), killed)
      ensures old(state) == Rules.End ==> unchanged(this, cells, upperDeadZone, lowerDeadZone)
      ensures old(turn) <= turn <= old(turn) + 1
      ensures old(state) == Rules.End ==> state == Rules.End
      // a click on one of the mover's own pieces only selects it
      ensures old(state) == Rules.Started && cell != null && old(IsCurrentUserPiece(cell)) ==>
                selectedCell == cell && cell.active &&
                turn == old(turn) && state == old(state) && currentPlayer == old(currentPlayer) &&
                upperDeadZone.pieces == old(upperDeadZone.pieces) &&
                lowerDeadZone.pieces == old(lowerDeadZone.pieces)
      // any other click, with a cell selected, moves and then changes the turn
      ensures old(state) == Rules.Started && cell != null && !old(IsCurrentUserPiece(cell)) &&
              old(selectedCell) != null ==>
                selectedCell == null && !old(selectedCell).active &&
                (state == Rules.End <==> killed.Some? && killed.value.isLion) &&
                (state == Rules.Started ==> turn == old(turn) + 1 && currentPlayer != old(currentPlayer))
      // with nothing selected, or no cell clicked, nothing happens
      ensures old(state) == Rules.Started &&
              (cell == null || (!old(IsCurrentUserPiece(cell)) && old(selectedCell) == null)) ==>
                unchanged(this, cells, upperDeadZone, lowerDeadZone)
      // only a move can change what the cells hold
      ensures !(old(state) == Rules.Started && cell != null && !old(IsCurrentUserPiece(cell)) &&
                old(selectedCell) != null) ==>
                forall c :: c in cells ==> c.piece == old(c.piece)
    {
      if state == Rules.End {
        return;
      }
      if cell == null {
        return;
      }
      if IsCurrentUserPiece(cell) {
        Select(cell);
        return;
      }
      if selectedCell != null {
        Move(cell, killed);
        ChangeTurn();
      }
    }
  }
}
