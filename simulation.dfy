/**
  The client of the game: one trial of the simulation starts a fresh game from
  a shuffled deck with a strategy, plays it to the end and takes the number of
  discarded cards as the score. The shuffle itself is not modelled: the trial
  receives the deck in the order the shuffle produced.
 */
module Simulation {
  import opened Cards
  import opened Strategies
  import opened Games

  /**
    One trial: the score is the heap size the game's full play reaches from
    that order of the deck, and never more than the solved score.
   */
  method PlayTrial(shuffled: seq<Card>, s: Strategy) returns (score: nat)
    requires multiset(shuffled) == multiset(DECK)
    ensures score == |PlayFrom(s, Position(shuffled, [[], [], [], []], [])).heap|
    ensures score <= SolvedScore
  {
    var g := new Game();
    g.Initialize(shuffled, s);
    DeckLayout(Two, Clubs);
    assert |shuffled| == |multiset(shuffled)| == 52;
    var r := g.Play();
    GameScoreAtMostSolved(s, shuffled);
    return r.value;
  }
}
