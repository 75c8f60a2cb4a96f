/**
  The card model of Aces Up: ranks and suits as enumerations whose comparisons
  follow their integer values, cards as (rank, suit) pairs, the "beats"
  relation that drives all clearing, the two-letter short name of a card and
  the fixed 52-card deck.
 */
module Cards {

  /** The four suits, valued 1..4. */
  datatype Suit = Clubs | Diamonds | Hearts | Spades {

    function Value(): (v: nat)
      ensures 1 <= v <= 4
    {
      match this
      case Clubs => 1
      case Diamonds => 2
      case Hearts => 3
      case Spades => 4
    }

    // The comparisons of an ordered enumeration: by value, within one enumeration.
    predicate Lt(other: Suit) { Value() < other.Value() }
    predicate Le(other: Suit) { Value() <= other.Value() }
    predicate Gt(other: Suit) { Value() > other.Value() }
    predicate Ge(other: Suit) { Value() >= other.Value() }
  }

  /** The thirteen ranks, valued 1 (Two) .. 13 (Ace): the Ace is the highest. */
  datatype Rank = Two | Three | Four | Five | Six | Seven | Eight | Nine | Ten
                | Jack | Queen | King | Ace {

    function Value(): (v: nat)
      ensures 1 <= v <= 13
    {
      match this
      case Two => 1
      case Three => 2
      case Four => 3
      case Five => 4
      case Six => 5
      case Seven => 6
      case Eight => 7
      case Nine => 8
      case Ten => 9
      case Jack => 10
      case Queen => 11
      case King => 12
      case Ace => 13
    }

    predicate Lt(other: Rank) { Value() < other.Value() }
    predicate Le(other: Rank) { Value() <= other.Value() }
    predicate Gt(other: Rank) { Value() > other.Value() }
    predicate Ge(other: Rank) { Value() >= other.Value() }
  }

  /** The one-character name of a suit. */
  function SuitShortName(s: Suit): char
  {
    match s
    case Clubs => 'c'
    case Diamonds => 'd'
    case Hearts => 'h'
    case Spades => 's'
  }

  /** The one-character name of a rank; Ten is written 'T'. */
  function RankShortName(r: Rank): char
  {
    match r
    case Two => '2'
    case Three => '3'
    case Four => '4'
    case Five => '5'
    case Six => '6'
    case Seven => '7'
    case Eight => '8'
    case Nine => '9'
    case Ten => 'T'
    case Jack => 'J'
    case Queen => 'Q'
    case King => 'K'
    case Ace => 'A'
  }

  datatype Card = Card(rank: Rank, suit: Suit) {

    /** This card beats `other` when both have the same suit and this one ranks higher. */
    predicate Beats(other: Card)
    {
      suit == other.suit && rank.Gt(other.rank)
    }

    /** The short name: the rank letter followed by the suit letter, for example "Ah". */
    function ShortName(): (name: string)
      ensures |name| == 2
    {
      [RankShortName(rank)] + [SuitShortName(suit)]
    }
  }

  /** The ranks and suits in declaration (value) order. */
  const AllRanks: seq<Rank> := [Two, Three, Four, Five, Six, Seven, Eight, Nine, Ten, Jack, Queen, King, Ace]
  const AllSuits: seq<Suit> := [Clubs, Diamonds, Hearts, Spades]

  /**
    The full 52-card deck, rank-major: the four suits of Two, then of Three, ...
    Position k holds rank AllRanks[k / 4] in suit AllSuits[k % 4].
   */
  const DECK: seq<Card> :=
    seq(|AllRanks| * |AllSuits|, k requires 0 <= k < |AllRanks| * |AllSuits| =>
      Card(AllRanks[k / |AllSuits|], AllSuits[k % |AllSuits|]))

  /** The score of a fully solved game: every card but the four Aces discarded. */
  const SolvedScore: nat := 48

  /** No card in `cards` is an Ace. */
  predicate NoAces(cards: seq<Card>)
  {
    forall c | c in cards :: c.rank != Ace
  }

  // ---------------------------------------------------------------------------
  // Ordering of the enumerations

  lemma RankValueInjective(a: Rank, b: Rank)
    ensures a.Value() == b.Value() ==> a == b
  {
  }

  lemma SuitValueInjective(a: Suit, b: Suit)
    ensures a.Value() == b.Value() ==> a == b
  {
  }

  /** The rank comparisons are reflexive, total, and Gt, Ge are the converses of Lt, Le. */
  lemma RankTotalOrder(a: Rank, b: Rank)
    ensures a.Le(a) && !a.Lt(a)
    ensures a.Le(b) || b.Le(a)
    ensures a.Gt(b) <==> b.Lt(a)
    ensures a.Ge(b) <==> b.Le(a)
  {
  }

  /** The rank comparisons are transitive. */
  lemma RankTransitive(a: Rank, b: Rank, c: Rank)
    ensures a.Le(b) && b.Le(c) ==> a.Le(c)
    ensures a.Lt(b) && b.Lt(c) ==> a.Lt(c)
  {
  }

  /** The rank order is antisymmetric: distinct ranks compare strictly. */
  lemma RankAntisymmetric(a: Rank, b: Rank)
    ensures a.Le(b) && b.Le(a) ==> a == b
    ensures a.Lt(b) <==> a.Le(b) && a != b
  {
    RankValueInjective(a, b);
  }

  /** The suit comparisons are reflexive, total, and Gt, Ge are the converses of Lt, Le. */
  lemma SuitTotalOrder(a: Suit, b: Suit)
    ensures a.Le(a) && !a.Lt(a)
    ensures a.Le(b) || b.Le(a)
    ensures a.Gt(b) <==> b.Lt(a)
    ensures a.Ge(b) <==> b.Le(a)
  {
  }

  /** The suit comparisons are transitive. */
  lemma SuitTransitive(a: Suit, b: Suit, c: Suit)
    ensures a.Le(b) && b.Le(c) ==> a.Le(c)
    ensures a.Lt(b) && b.Lt(c) ==> a.Lt(c)
  {
  }

  /** The suit order is antisymmetric: distinct suits compare strictly. */
  lemma SuitAntisymmetric(a: Suit, b: Suit)
    ensures a.Le(b) && b.Le(a) ==> a == b
    ensures a.Lt(b) <==> a.Le(b) && a != b
  {
    SuitValueInjective(a, b);
  }

  // ---------------------------------------------------------------------------
  // The beats relation

  lemma BeatsByValue(a: Card, b: Card)
    ensures a.Beats(b) <==> a.suit == b.suit && a.rank.Value() > b.rank.Value()
  {
  }

  lemma BeatsIrreflexive(a: Card)
    ensures !a.Beats(a)
  {
  }

  lemma BeatsAsymmetric(a: Card, b: Card)
    ensures a.Beats(b) ==> !b.Beats(a)
  {
  }

  lemma BeatsTransitive(a: Card, b: Card, c: Card)
    ensures a.Beats(b) && b.Beats(c) ==> a.Beats(c)
  {
  }

  /** Cards of different suits never beat each other, in either direction. */
  lemma DifferentSuitsNeverBeat(a: Card, b: Card)
    requires a.suit != b.suit
    ensures !a.Beats(b) && !b.Beats(a)
  {
  }

  /** Nothing beats an Ace, and a Two beats nothing. */
  lemma AceUnbeatenTwoBeatsNothing(a: Card, b: Card)
    ensures b.rank == Ace ==> !a.Beats(b)
    ensures a.rank == Two ==> !a.Beats(b)
  {
  }

  /** Within one suit, beats is trichotomous: of two distinct cards exactly one beats the other. */
  lemma BeatsTotalWithinSuit(a: Card, b: Card)
    requires a.suit == b.suit
    ensures a != b <==> (a.Beats(b) || b.Beats(a))
  {
    RankValueInjective(a.rank, b.rank);
  }

  // ---------------------------------------------------------------------------
  // Short names

  /** Different cards have different short names. */
  lemma ShortNameInjective(a: Card, b: Card)
    ensures a.ShortName() == b.ShortName() ==> a == b
  {
    if a.ShortName() == b.ShortName() {
      assert a.ShortName()[0] == b.ShortName()[0] && a.ShortName()[1] == b.ShortName()[1];
      RankShortNameInjective(a.rank, b.rank);
      SuitShortNameInjective(a.suit, b.suit);
    }
  }

  lemma RankShortNameInjective(a: Rank, b: Rank)
    ensures RankShortName(a) == RankShortName(b) ==> a == b
  {
  }

  lemma SuitShortNameInjective(a: Suit, b: Suit)
    ensures SuitShortName(a) == SuitShortName(b) ==> a == b
  {
  }

  // ---------------------------------------------------------------------------
  // The deck

  lemma AllRanksByValue(r: Rank)
    ensures AllRanks[r.Value() - 1] == r
  {
  }

  lemma AllSuitsByValue(s: Suit)
    ensures AllSuits[s.Value() - 1] == s
  {
  }

  /** The deck has 52 cards and holds rank r, suit s at index 4*(r-1) + (s-1) (values 1-based). */
  lemma DeckLayout(r: Rank, s: Suit)
    ensures |DECK| == 52
    ensures DECK[4 * (r.Value() - 1) + (s.Value() - 1)] == Card(r, s)
  {
    AllRanksByValue(r);
    AllSuitsByValue(s);
  }

  /** Every card is in the deck, and at exactly one position. */
  lemma DeckHoldsEachCardOnce(c: Card, k: nat, m: nat)
    requires k < |DECK| && m < |DECK|
    ensures c in DECK
    ensures DECK[k] == c && DECK[m] == c ==> k == m
  {
    DeckLayout(c.rank, c.suit);
    if DECK[k] == c && DECK[m] == c {
      assert |AllSuits| == 4;
      AllRanksAt(k / 4);
      AllRanksAt(m / 4);
      AllSuitsAt(k % 4);
      AllSuitsAt(m % 4);
      assert k / 4 == m / 4 && k % 4 == m % 4;
    }
  }

  lemma AllRanksAt(i: nat)
    requires i < |AllRanks|
    ensures AllRanks[i].Value() == i + 1
  {
  }

  lemma AllSuitsAt(i: nat)
    requires i < |AllSuits|
    ensures AllSuits[i].Value() == i + 1
  {
  }

  /** The last four cards of the deck are its Aces. */
  lemma DeckAcesLast()
    ensures |DECK| == 52
    ensures NoAces(DECK[..48])
    ensures forall c | c in DECK[48..] :: c.rank == Ace
  {
    forall k | 0 <= k < 52
      ensures DECK[k].rank == Ace <==> k >= 48
    {
    }
  }

  lemma MultisetSubsetSize<T>(a: multiset<T>, b: multiset<T>)
    requires a <= b
    ensures |a| <= |b|
  {
    assert b == a + (b - a);
  }

  /**
    A collection of distinct deck cards without Aces has at most 48 cards: the
    solved score is the largest reachable.
   */
  lemma NonAcesAtMostSolved(cards: seq<Card>)
    requires multiset(cards) <= multiset(DECK)
    requires NoAces(cards)
    ensures |cards| <= SolvedScore
  {
    DeckAcesLast();
    var low, high := DECK[..48], DECK[48..];
    assert DECK == low + high;
    forall c
      ensures multiset(cards)[c] <= multiset(low)[c]
    {
      if c.rank == Ace {
        assert c !in cards;
      } else {
        assert c !in high;
      }
    }
    MultisetSubsetSize(multiset(cards), multiset(low));
  }
}
