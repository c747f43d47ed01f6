/** The game's state machine on values: what selecting, moving, changing the
    turn and handling one click do to the observable state of a game. The
    class `LionGame.Game` is proved to follow these functions step by step. */
module Rules {
  import opened Pieces

  datatype Phase = Started | End

  /** What a game looks like from outside: the turn counter, the side to
      move, the phase, the selected cell, the set of highlighted cells and
      the contents of the upper and lower dead zones. `C` is the cell type. */
  datatype State<C(==)> = State(
    turn: nat,
    current: PlayerType,
    phase: Phase,
    selected: Option<C>,
    highlighted: set<C>,
    upperDead: seq<Piece>,
    lowerDead: seq<Piece>)

  /** A click that resolved to a cell, with the piece that cell holds. */
  datatype Click<C> = Click(cell: C, occupant: Option<Piece>)

  /** One interaction: the click (None when the target is neither a cell nor
      a piece) and the piece the selected piece's move would report killed. */
  datatype Event<C> = Event(click: Option<Click<C>>, killed: Option<Piece>)

  /** A fresh game: turn 0, the upper side to move, nothing selected. */
  function Initial<C(==)>(): State<C>
  {
    State(0, Upper, Started, None, {}, [], [])
  }

  /** The cells the selection accounts for: the selected one, or none. */
  function Selection<C(==)>(s: State<C>): set<C>
  {
    if s.selected.Some? then {s.selected.value} else {}
  }

  /** Whether a cell holding `occupant` holds a piece of side `side`. */
  predicate IsOwnPiece(side: PlayerType, occupant: Option<Piece>)
  {
    occupant.Some? && occupant.value.ownerType == side
  }

  /** At most one cell is highlighted, and it is the selected one. */
  ghost predicate SingleHighlight<C>(s: State<C>)
  {
    s.highlighted <= Selection(s)
  }

  /** The upper side moves on even turns and the lower side on odd ones. */
  ghost predicate Alternating<C>(s: State<C>)
  {
    s.current == if s.turn % 2 == 0 then Upper else Lower
  }

  /** The lower dead zone holds only upper pieces, and the upper dead zone
      only lower ones. */
  ghost predicate CapturesRouted<C>(s: State<C>)
  {
    (forall i :: 0 <= i < |s.lowerDead| ==> s.lowerDead[i].ownerType == Upper) &&
    (forall i :: 0 <= i < |s.upperDead| ==> s.upperDead[i].ownerType == Lower)
  }

  /** Some Lion has been captured. */
  ghost predicate LionCaptured<C>(s: State<C>)
  {
    (exists p :: p in s.upperDead && p.isLion) ||
    (exists p :: p in s.lowerDead && p.isLion)
  }

  /** The invariant of every game reachable from `Initial()`. */
  ghost predicate Inv<C>(s: State<C>)
  {
    SingleHighlight(s) && Alternating(s) && CapturesRouted(s) &&
    (s.phase == End <==> LionCaptured(s))
  }

  /** `select(cell)`: the previous selection loses its highlight, `c` gains
      it and becomes the selection. */
  function Select<C(==)>(s: State<C>, c: C): (t: State<C>)
    ensures t.selected == Some(c) && c in t.highlighted
    ensures s.selected.Some? && s.selected.value != c ==> s.selected.value !in t.highlighted
    ensures t.highlighted - {c} <= s.highlighted
    ensures SingleHighlight(s) ==> t.highlighted == {c}
    ensures t.turn == s.turn && t.current == s.current && t.phase == s.phase
    ensures t.upperDead == s.upperDead && t.lowerDead == s.lowerDead
    ensures Inv(s) ==> Inv(t)
  {
    var lit := if s.selected.Some? then s.highlighted - {s.selected.value} else s.highlighted;
    s.(selected := Some(c), highlighted := lit + {c})
  }

  /** `move(cell)`: the selection loses its highlight, `target` becomes the
      selection, a killed piece goes to the dead zone opposite its owner, and
      a killed Lion ends the game. */
  function Move<C(==)>(s: State<C>, target: C, killed: Option<Piece>): (t: State<C>)
    requires s.selected.Some?
    ensures t.selected == Some(target)
    ensures t.highlighted == s.highlighted - {s.selected.value}
    ensures t.turn == s.turn && t.current == s.current
    ensures killed.None? ==> t.upperDead == s.upperDead && t.lowerDead == s.lowerDead
    ensures killed.Some? && killed.value.ownerType == Upper ==>
              t.lowerDead == s.lowerDead + [killed.value] && t.upperDead == s.upperDead
    ensures killed.Some? && killed.value.ownerType == Lower ==>
              t.upperDead == s.upperDead + [killed.value] && t.lowerDead == s.lowerDead
    ensures killed.Some? && killed.value.isLion ==> t.phase == End
    ensures (killed.None? || !killed.value.isLion) ==> t.phase == s.phase
    ensures Inv(s) ==> Inv(t)
  {
    var moved := s.(selected := Some(target), highlighted := s.highlighted - {s.selected.value});
    match killed
    case None => moved
    case Some(k) =>
      var captured :=
        if k.ownerType == Upper then moved.(lowerDead := s.lowerDead + [k])
        else moved.(upperDead := s.upperDead + [k]);
      if k.isLion then captured.(phase := End) else captured
  }

  /** `changeTurn()`: the selection is cleared; unless the game has ended,
      the turn counter advances and the other side is to move. */
  function ChangeTurn<C(==)>(s: State<C>): (t: State<C>)
    requires s.selected.Some?
    ensures t.selected == None && t.highlighted == s.highlighted - {s.selected.value}
    ensures s.phase == End ==> t.turn == s.turn && t.current == s.current
    ensures s.phase == Started ==> t.turn == s.turn + 1 && t.current == Opponent(s.current)
    ensures t.phase == s.phase
    ensures t.upperDead == s.upperDead && t.lowerDead == s.lowerDead
    ensures Inv(s) ==> Inv(t)
  {
    var cleared := s.(selected := None, highlighted := s.highlighted - {s.selected.value});
    if s.phase == End then cleared
    else cleared.(turn := s.turn + 1, current := Opponent(s.current))
  }

  /** The click handler: ignored once the game has ended or when the click
      resolves to no cell; a click on one of the mover's own pieces selects
      it; any other click, when a cell is selected, moves and changes the
      turn; otherwise nothing happens. */
  function Dispatch<C(==)>(s: State<C>, click: Option<Click<C>>, killed: Option<Piece>): (t: State<C>)
    ensures s.phase == End ==> t == s
    ensures click.None? ==> t == s
    ensures s.phase == Started && click.Some? && IsOwnPiece(s.current, click.value.occupant) ==>
              t == Select(s, click.value.cell)
    ensures s.phase == Started && click.Some? && IsOwnPiece(s.current, click.value.occupant) ==>
              t.selected == Some(click.value.cell) && t.turn == s.turn && t.current == s.current &&
              t.phase == s.phase && t.upperDead == s.upperDead && t.lowerDead == s.lowerDead
    ensures s.phase == Started && click.Some? && !IsOwnPiece(s.current, click.value.occupant) ==>
              t == if s.selected.None? then s else ChangeTurn(Move(s, click.value.cell, killed))
    ensures s.turn <= t.turn <= s.turn + 1
    ensures s.phase == End ==> t.phase == End
    ensures t.turn == s.turn + 1 <==>
              s.phase == Started && click.Some? && !IsOwnPiece(s.current, click.value.occupant) &&
              s.selected.Some? && !(killed.Some? && killed.value.isLion)
    ensures Inv(s) ==> Inv(t)
  {
    if s.phase == End then s
    else match click
      case None => s
      case Some(Click(c, occupant)) =>
        if IsOwnPiece(s.current, occupant) then Select(s, c)
        else if s.selected.Some? then ChangeTurn(Move(s, c, killed))
        else s
  }

  /** The state after handling `events` in order, starting from `s`. */
  function Run<C(==)>(s: State<C>, events: seq<Event<C>>): State<C>
    decreases |events|
  {
    if events == [] then s
    else Run(Dispatch(s, events[0].click, events[0].killed), events[1..])
  }
}
