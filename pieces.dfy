/** Values shared by the board and the game: the two sides, the pieces and an
    optional value (the source's `null`/`undefined`). */
module Pieces {

  datatype Option<T> = None | Some(value: T)

  /** The two sides of the game (`PlayerType.UPPER` and `PlayerType.LOWER`). */
  datatype PlayerType = Upper | Lower

  /** The side that plays against `side`. */
  function Opponent(side: PlayerType): (r: PlayerType)
    ensures r != side
  {
    if side == Upper then Lower else Upper
  }

  /** A piece as the game sees it: the side that owns it, and whether it is
      the royal piece, a `Lion`, whose capture ends the game. How a piece
      moves is the piece's own business and is not part of this model. */
  datatype Piece = Piece(ownerType: PlayerType, isLion: bool)
}
