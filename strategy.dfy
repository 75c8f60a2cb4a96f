/**
  Move selectors. A strategy looks at the stock, the heap and the tableau and
  either proposes a move (source pile, target pile) or declines. Nothing here
  changes any state: every selector is a function of its inputs.
 */
module Strategies {
  import opened Wrappers
  import opened Cards

  /** A proposed move: (source pile index, target pile index). */
  type Move = (nat, nat)

  /** A pile may receive a card only when it is empty. */
  predicate IsTarget(pile: seq<Card>)
  {
    |pile| == 0
  }

  /** A pile may give up its top card only when it holds more than one card. */
  predicate IsSource(pile: seq<Card>)
  {
    |pile| > 1
  }

  /** The lowest index from `i` on whose pile satisfies `p`, or None when there is none. */
  function FirstFrom(tableau: seq<seq<Card>>, p: seq<Card> -> bool, i: nat): (r: Option<nat>)
    requires i <= |tableau|
    ensures r.Some? ==> i <= r.value < |tableau| && p(tableau[r.value])
    ensures r.Some? ==> forall k :: i <= k < r.value ==> !p(tableau[k])
    ensures r.None? <==> forall k :: i <= k < |tableau| ==> !p(tableau[k])
    decreases |tableau| - i
  {
    if i == |tableau| then None
    else if p(tableau[i]) then Some(i)
    else FirstFrom(tableau, p, i + 1)
  }

  /** The lowest index of an empty pile, or None when no pile is empty. */
  function FirstTarget(tableau: seq<seq<Card>>): (r: Option<nat>)
    ensures r.Some? ==> r.value < |tableau| && tableau[r.value] == []
    ensures r.Some? ==> forall k :: 0 <= k < r.value ==> tableau[k] != []
    ensures r.None? <==> forall k :: 0 <= k < |tableau| ==> tableau[k] != []
  {
    FirstFrom(tableau, IsTarget, 0)
  }

  /** The lowest index of a pile with more than one card, or None when there is none. */
  function FirstSource(tableau: seq<seq<Card>>): (r: Option<nat>)
    ensures r.Some? ==> r.value < |tableau| && |tableau[r.value]| > 1
    ensures r.Some? ==> forall k :: 0 <= k < r.value ==> |tableau[k]| <= 1
    ensures r.None? <==> forall k :: 0 <= k < |tableau| ==> |tableau[k]| <= 1
  {
    FirstFrom(tableau, IsSource, 0)
  }

  /**
    The first-possible selection: the first source onto the first target, or
    None when either is missing. The two piles always differ.
   */
  function FirstPossibleMove(tableau: seq<seq<Card>>): (r: Option<Move>)
    ensures r.Some? ==> r.value.0 < |tableau| && r.value.1 < |tableau|
    ensures r.Some? ==> tableau[r.value.1] == [] && |tableau[r.value.0]| > 1
    ensures r.Some? ==> r.value.0 != r.value.1
    ensures r.Some? ==> forall k :: 0 <= k < r.value.1 ==> tableau[k] != []
    ensures r.Some? ==> forall k :: 0 <= k < r.value.0 ==> |tableau[k]| <= 1
    ensures r.None? <==>
      (forall k :: 0 <= k < |tableau| ==> tableau[k] != []) ||
      (forall k :: 0 <= k < |tableau| ==> |tableau[k]| <= 1)
  {
    match FirstTarget(tableau)
    case None => None
    case Some(target) =>
      match FirstSource(tableau)
      case None => None
      case Some(source) => Some((source, target))
  }

  /** The strategies whose code is part of this model. */
  datatype Strategy =
    | Base           // the abstract strategy: its move does nothing
    | NoOp           // never moves
    | FirstPossible  // first source onto first target
  {
    /** The move this strategy proposes; stock and heap are ignored by all of them. */
    function Move(stock: seq<Card>, heap: seq<Card>, tableau: seq<seq<Card>>): (r: Option<Move>)
      ensures this != FirstPossible ==> r.None?
      ensures this == FirstPossible ==> r == FirstPossibleMove(tableau)
    {
      match this
      case Base => None
      case NoOp => None
      case FirstPossible => FirstPossibleMove(tableau)
    }
  }
}
