/** The collaborators `Game` works with: players, cells and dead zones.
    Only the parts of them that `Game` reads or changes are modelled. */
module Board {
  import opened Pieces

  /** One of the two players; immutable once created. */
  class Player {
    const playerType: PlayerType

    constructor (playerType: PlayerType)
      ensures this.playerType == playerType
    {
      this.playerType := playerType;
    }
  }

  /** A board cell: at most one piece, and a highlight flag that marks the
      selected cell. */
  class Cell {
    var piece: Option<Piece>
    var active: bool

    constructor (piece: Option<Piece>)
      ensures this.piece == piece && !active
    {
      this.piece := piece;
      active := false;
    }

    /** Highlights the cell (`cell.active()`). */
    method Activate()
      modifies this`active
      ensures active
    {
      active := true;
    }

    /** Removes the highlight (`cell.deactive()`). */
    method Deactivate()
      modifies this`active
      ensures !active
    {
      active := false;
    }
  }

  /** Where captured pieces go; `side` is the side the zone is named after. */
  class DeadZone {
    const side: PlayerType
    var pieces: seq<Piece>

    constructor (side: PlayerType)
      ensures this.side == side && pieces == []
    {
      this.side := side;
      pieces := [];
    }

    /** Appends a captured piece. */
    method Put(p: Piece)
      modifies this`pieces
      ensures pieces == old(pieces) + [p]
    {
      pieces := pieces + [p];
    }
  }
}
