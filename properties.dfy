/** Properties of whole games: what holds after any sequence of clicks. */
module Properties {
  import opened Pieces
  import opened Rules

  /** A fresh game satisfies the game invariant. */
  lemma InitialInv<C>()
    ensures Inv(Initial<C>())
    ensures Initial<C>().turn == 0 && Initial<C>().phase == Started && Initial<C>().current == Upper
  {
  }

  /** Handling events in two batches is handling them all. */
  lemma {:induction false} RunAppend<C>(s: State<C>, first: seq<Event<C>>, second: seq<Event<C>>)
    ensures Run(s, first + second) == Run(Run(s, first), second)
    decreases |first|
  {
    if first == [] {
      assert first + second == second;
    } else {
      assert (first + second)[1..] == first[1..] + second;
      RunAppend(Dispatch(s, first[0].click, first[0].killed), first[1..], second);
    }
  }

  /** Once the game has ended, no sequence of clicks changes anything. */
  lemma {:induction false} EndIsAbsorbing<C>(s: State<C>, events: seq<Event<C>>)
    requires s.phase == End
    ensures Run(s, events) == s
    decreases |events|
  {
    if events != [] {
      EndIsAbsorbing(s, events[1..]);
    }
  }

  /** The game is never left once it has ended: whatever follows the click
      that ended it leaves the state as that click left it. */
  lemma EndIsNeverLeft<C>(s: State<C>, before: seq<Event<C>>, after: seq<Event<C>>)
    requires Run(s, before).phase == End
    ensures Run(s, before + after) == Run(s, before)
  {
    RunAppend(s, before, after);
    EndIsAbsorbing(Run(s, before), after);
  }

  /** The turn counter never decreases, and rises by at most one per click. */
  lemma {:induction false} TurnBounds<C>(s: State<C>, events: seq<Event<C>>)
    ensures s.turn <= Run(s, events).turn <= s.turn + |events|
    decreases |events|
  {
    if events != [] {
      TurnBounds(Dispatch(s, events[0].click, events[0].killed), events[1..]);
    }
  }

  /** Captured pieces stay captured: each dead zone only grows at its end. */
  lemma {:induction false} DeadZonesOnlyGrow<C>(s: State<C>, events: seq<Event<C>>)
    ensures s.upperDead <= Run(s, events).upperDead
    ensures s.lowerDead <= Run(s, events).lowerDead
    decreases |events|
  {
    if events != [] {
      var next := Dispatch(s, events[0].click, events[0].killed);
      assert s.upperDead <= next.upperDead && s.lowerDead <= next.lowerDead;
      DeadZonesOnlyGrow(next, events[1..]);
    }
  }

  /** Every click keeps the game invariant. */
  lemma {:induction false} RunKeepsInv<C>(s: State<C>, events: seq<Event<C>>)
    requires Inv(s)
    ensures Inv(Run(s, events))
    decreases |events|
  {
    if events != [] {
      RunKeepsInv(Dispatch(s, events[0].click, events[0].killed), events[1..]);
    }
  }

  /** In every game reachable from a fresh one: at most the selected cell is
      highlighted, the sides alternate with the turn counter, each dead zone
      holds only the other side's pieces, and the game has ended exactly
      when a Lion has been captured. */
  lemma ReachableInv<C>(events: seq<Event<C>>)
    ensures var s := Run(Initial<C>(), events);
      s.highlighted <= Selection(s) &&
      s.current == (if s.turn % 2 == 0 then Upper else Lower) &&
      (forall i :: 0 <= i < |s.lowerDead| ==> s.lowerDead[i].ownerType == Upper) &&
      (forall i :: 0 <= i < |s.upperDead| ==> s.upperDead[i].ownerType == Lower) &&
      (s.phase == End <==> LionCaptured(s))
  {
    InitialInv<C>();
    RunKeepsInv(Initial<C>(), events);
  }

  /** Two turn changes in a running game hand the move back to the side
      that had it, two turns later. */
  lemma ChangeTurnTwiceRestoresPlayer<C>(s: State<C>, c: C)
    requires s.selected.Some? && s.phase == Started
    ensures var t := ChangeTurn(Select(ChangeTurn(s), c));
      t.current == s.current && t.turn == s.turn + 2
  {
  }
}
