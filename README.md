# Aces Up, modelled in Dafny

A model of the Aces Up solitaire engine. The engine has three parts:

- a card model;
- the move-selecting strategies;
- the `Game` object that deals, clears, moves and plays a game to its end.

## How a game runs

A game holds three things:

- a **stock**, a draw pile taken from its end;
- a **tableau** of four piles, where the last card of a pile is its top;
- a **heap**, the discard pile.

Each round does three things, in order:

1. **Deal.** It takes one card from the end of the stock for each pile.
2. **Clear.** It discards every pile top that another pile's top beats, until a full pass over the piles clears nothing. One card beats another when it has the same suit and a higher rank.
3. **Move.** While some pile is empty and some pile holds more than one card, it asks the strategy for a move, makes it and clears again.

The game ends when the stock is empty. Its score is the size of the heap.

## Files

- `wrappers.dfy` holds `Option` and `Result`.
- `cards.dfy` (module `Cards`) holds:
  - ranks and suits, as enumerations ordered by their values;
  - cards and the beats relation;
  - two-letter short names;
  - the 52-card `DECK`.
- `strategy.dfy` (module `Strategies`) holds the selectors `IsTarget`, `IsSource`, `FirstTarget` and `FirstSource`. It also holds the `Strategy` datatype for the three strategies whose code is present: the base strategy, no-op and first-possible.
- `game.dfy` (module `Games`) has two parts.
  - **Specification functions** for each phase of play: `Strip` and `ClearedTableau`/`ClearedHeap` for clearing one pile, `SweepFrom` for one pass, `Settle` for the clearing fixed point, `DealtTableau`, `MoveTop`, `MoveStep`, `MovePhase`, `Round` and `PlayFrom`. The lemmas about them are the properties promised below.
  - **The class `Game`**. It has fields `stock`, `heap`, `tableau`, `strategy`, `initialized` and `finished`, and the source's loops as methods with loop invariants. Each method's `ensures` ties the new state to the specification function of its phase.
- `simulation.dfy` (module `Simulation`) holds one trial of the simulation. A trial plays a fresh game from a shuffled deck, and its score is at most 48.

## How the model represents the source

- **Strategies.** The strategy is the datatype `Strategy`, not an arbitrary function. The reason is that a move these strategies never propose would break `move` (a pop from an empty pile). `StrategyMovesValid` proves that every move a modelled strategy proposes is valid on the tableau it was asked about.
- **Exceptions.** Python exceptions become `Result` failures:
  - `play` on a game that is not initialized gives `NotInitialized`, as in game.py:38-39;
  - `play` on a finished game gives `AlreadyFinished`, as in game.py:40-41;
  - `list.pop` on an empty stock gives `EmptyStock`, as in game.py:90.
- **Running out mid-deal.** When the stock runs out during a deal, the source's `pop` raises after the piles before it have received their cards. The model keeps that partial state: `Deal`, `PlayRound` and `Play` all state it through `DealCount` and `Round`.
- **The `play` loop.** Its deal loop and its move loop (game.py:47-74) are the methods below:
  - `PlayRounds` is the deal loop;
  - `PlayRound` is one round of it;
  - `MoveWhilePossible` is the move loop;
  - `MoveAndClear` is one pass of the move loop, that is `can_move() and make_move()` followed by `clear_all()`.

  `ClearPass` is the `for` loop inside `clear_idx`. These methods have the same branches and order of effects as the inlined loops.

## Model

| member | source | states |
|---|---|---|
| Cards.Suit.Value | cards.py:24-28 | the suit values: Clubs 1, Diamonds 2, Hearts 3, Spades 4, so every value lies in 1..4 |
| Cards.Rank.Value | cards.py:37-50 | the rank values: Two 1 up to Ace 13, so every value lies in 1..13 |
| Cards.Suit.Lt | cards.py:19-22 | suit `<` holds iff this suit's value is smaller |
| Cards.Suit.Le | cards.py:14-17 | suit `<=` holds iff this suit's value is smaller or equal |
| Cards.Suit.Gt | cards.py:9-12 | suit `>` holds iff this suit's value is larger |
| Cards.Suit.Ge | cards.py:4-7 | suit `>=` holds iff this suit's value is larger or equal |
| Cards.Rank.Lt | cards.py:19-22 | rank `<` holds iff this rank's value is smaller |
| Cards.Rank.Le | cards.py:14-17 | rank `<=` holds iff this rank's value is smaller or equal |
| Cards.Rank.Gt | cards.py:9-12 | rank `>` holds iff this rank's value is larger |
| Cards.Rank.Ge | cards.py:4-7 | rank `>=` holds iff this rank's value is larger or equal |
| Cards.SuitShortName | cards.py:30-35 | the suit letters c, d, h, s |
| Cards.RankShortName | cards.py:52-66 | the rank letters 2 to 9, then T, J, Q, K, A |
| Cards.Card.Beats | cards.py:85-86 | a card beats another iff both have the same suit and its rank is greater |
| Cards.DECK | cards.py:88 | every rank, in value order, and within each rank every suit, in value order |
| Cards.RankTotalOrder | cards.py:3-22 | rank `<=` is reflexive and total, `<` is irreflexive, and `>`, `>=` are the converses of `<`, `<=` |
| Cards.RankTransitive | cards.py:3-22 | rank `<=` and `<` are transitive |
| Cards.RankAntisymmetric | cards.py:37-50 | ranks that are `<=` both ways are equal, and `<` is `<=` between distinct ranks (the values 1..13 are distinct) |
| Cards.SuitTotalOrder | cards.py:3-22 | suit `<=` is reflexive and total, `<` is irreflexive, and `>`, `>=` are the converses |
| Cards.SuitTransitive | cards.py:3-22 | suit `<=` and `<` are transitive |
| Cards.SuitAntisymmetric | cards.py:24-28 | suits that are `<=` both ways are equal, and `<` is `<=` between distinct suits |
| Cards.BeatsByValue | cards.py:85-86 | a card beats another iff both have the same suit and its rank value is larger |
| Cards.BeatsIrreflexive | cards.py:85-86 | no card beats itself |
| Cards.BeatsAsymmetric | cards.py:85-86 | if a beats b, then b does not beat a |
| Cards.BeatsTransitive | cards.py:85-86 | if a beats b and b beats c, then a beats c |
| Cards.DifferentSuitsNeverBeat | cards.py:85-86 | cards of different suits beat each other in neither direction |
| Cards.AceUnbeatenTwoBeatsNothing | cards.py:85-86 | nothing beats an Ace, and a Two beats nothing |
| Cards.BeatsTotalWithinSuit | cards.py:85-86 | within one suit, two cards differ iff one of them beats the other |
| Cards.Card.ShortName | cards.py:80-83 | a short name is two characters long |
| Cards.ShortNameInjective | cards.py:80-83 | different cards have different short names |
| Cards.DeckLayout | cards.py:88 | the deck has 52 cards, and rank r of suit s is at index 4*(r-1)+(s-1) |
| Cards.DeckHoldsEachCardOnce | cards.py:88 | every (rank, suit) card is in the deck, at exactly one index |
| Cards.DeckAcesLast | cards.py:88 | the first 48 deck cards hold no Ace, and the last four are Aces |
| Cards.NonAcesAtMostSolved | cards.py:88 | a collection of deck cards without repeats and without Aces has at most 48 cards |
| Strategies.IsTarget | strategy.py:19-20 | holds iff the pile is empty |
| Strategies.IsSource | strategy.py:22-23 | holds iff the pile holds more than one card |
| Strategies.FirstFrom | strategy.py:7-17 | gives the lowest index from i on whose pile satisfies the test, or None iff no such pile exists |
| Strategies.FirstTarget | strategy.py:7-11 | gives the lowest index of an empty pile, or None iff no pile is empty |
| Strategies.FirstSource | strategy.py:13-17 | gives the lowest index of a pile with more than one card, or None iff there is none |
| Strategies.FirstPossibleMove | strategy.py:29-36 | a proposed (s, t) has tableau[t] empty, tableau[s] with more than one card and s != t, each the lowest such index; None iff there is no empty pile or no pile with more than one card |
| Strategies.Strategy.Move | strategy.py:4-36 | the base and no-op strategies always give None; first-possible gives the first-possible move |
| Games.FirstPossibleIffMovable | strategy.py:29-36 | first-possible gives None iff `can_move` is false on the same tableau |
| Games.StrategyMovesValid | strategy.py:29-36 | every move a strategy proposes goes from a pile with more than one card to a different, empty pile |
| Games.MovableDistinct | game.py:137-147 | a tableau can move iff it has an empty pile and a different pile with more than one card |
| Games.Game.constructor | game.py:9-11 | a new game is neither initialized nor finished |
| Games.Game.Initialize | game.py:21-35 | after initializing: the stock is the given deck, the heap is empty, there are four empty piles, the strategy is stored, and the game is initialized and not finished |
| Games.Game.Peek | game.py:95-97 | gives None iff the pile is empty, and otherwise the pile's last card |
| Games.Game.Draw | game.py:89-90 | on a non-empty stock, removes and returns its last card; on an empty stock, fails with EmptyStock and changes nothing |
| Games.Game.Deal | game.py:81-87 | succeeds iff the stock holds at least four cards; pile k receives the card k places from the stock's end, for as many piles as the stock has cards; the stock loses exactly those cards and the heap is unchanged; on success it returns the four cards in pile order |
| Games.DealtCardsReversed | game.py:81-87 | the cards a deal returns are the stock's last cards in reverse order |
| Games.DealtConserves | game.py:81-90 | a deal, complete or cut short, loses no card and adds none |
| Games.Game.Clear | game.py:92-93 | the top of pile idx moves to the end of the heap, nothing else changes, and every card is kept |
| Games.Game.BiggestPile | game.py:99-107 | gives the lowest index among the longest piles |
| Games.StripShape | game.py:123-134 | clearing a pile stops at an empty pile or an unbeaten top; every card it removes was beaten by another pile's top; it removes nothing iff the top was unbeaten at the start |
| Games.Game.ClearPass | game.py:124-134 | one pass keeps the state of clearing this pile; it clears only by shortening this pile; it clears nothing iff no other top beats the current top (both directions are stated), and then it changes nothing |
| Games.Game.ClearIdx | game.py:120-135 | clears pile idx until its top is unbeaten or the pile is empty, and returns how much the heap grew |
| Games.ClearedShape | game.py:120-135 | clearing one pile only shortens it and only appends to the heap; its top ends unbeaten; it changes nothing iff that top was unbeaten at the start |
| Games.ClearedBeaten | game.py:125-129 | every card that clearing one pile discards was beaten by another pile's top |
| Games.BeatenNotAce | game.py:126-129 | a beaten card is never an Ace |
| Games.ClearedConserves | game.py:120-135 | clearing one pile moves cards to the heap and loses none; the heap grows by what the tableau loses |
| Games.SweepShape | game.py:113-117 | a pass over all piles only shortens piles and only appends to the heap |
| Games.SweepNoAces | game.py:113-117 | a pass never discards an Ace |
| Games.SweepConserves | game.py:113-117 | a pass loses no card |
| Games.SweepIdle | game.py:113-117 | a pass clears nothing iff every top is unbeaten, and then it changes nothing |
| Games.SettleShape | game.py:109-118 | clearing to the fixed point only shortens piles, only appends to the heap, discards no Ace and loses no card |
| Games.SettleSettled | game.py:109-118 | after clearing, no top is beaten by another top; clearing discards nothing iff the tableau was already settled, and then it changes nothing |
| Games.SettleIdempotent | game.py:109-118 | clearing twice is the same as clearing once |
| Games.Game.ClearAll | game.py:109-118 | the new tableau and heap are the clearing fixed point of the old ones; the returned count is the heap's growth; every card is kept |
| Games.Game.ClearAllTwice | game.py:109-118 | a second `clear_all` right after a first returns 0 and changes nothing |
| Games.Game.CanMove | game.py:137-147 | gives true iff some pile is empty and some pile has more than one card |
| Games.Game.Move | game.py:160-161 | the top of `from` moves onto `to`, the other piles, stock and heap are unchanged, and every card is kept |
| Games.MoveTopConserves | game.py:160-161 | a move keeps the multiset and the number of tableau cards |
| Games.Game.MakeMove | game.py:149-158 | moves iff the strategy proposes a move; the move is valid and is made; without a proposal, nothing changes |
| Games.ValidMoveMeasure | game.py:63-73 | a valid move keeps the tableau's card count and removes one empty pile, which is the measure the move loop decreases |
| Games.MoveStepShape | game.py:63-66 | a move step happens iff the tableau can move and the strategy proposes a move; after it the tableau is settled |
| Games.Game.MoveAndClear | game.py:63-66 | `can_move() and make_move()` followed by `clear_all()` is exactly one move step, and nothing changes when no move is made |
| Games.Game.MoveWhilePossible | game.py:63-73 | the move loop ends in the state the move phase specifies |
| Games.MovePhaseHeap | game.py:63-73 | the move phase only appends to the heap and discards no Ace |
| Games.MovePhaseConserves | game.py:63-73 | the move phase loses no card |
| Games.MovePhaseSettles | game.py:63-73 | the move phase keeps a settled tableau settled and ends where no further move step is possible |
| Games.Game.PlayRound | game.py:47-74 | one round deals, clears and moves as the round function specifies; the deal succeeds iff the stock holds at least four cards |
| Games.RoundHeap | game.py:47-74 | a round only appends to the heap and discards no Ace |
| Games.RoundConserves | game.py:47-74 | a round loses no card |
| Games.RoundSettles | game.py:47-74 | a complete round ends on a settled tableau where the strategy makes no further move |
| Games.DealsOutIffMultiple | game.py:47-48 | the deal loop uses up the stock exactly iff the stock's size is a multiple of four |
| Games.Game.PlayRounds | game.py:47-74 | the deal loop ends in the state full play specifies, and completes iff the stock's size is a multiple of four |
| Games.PlayFromHeap | game.py:47-79 | full play empties the stock, only appends to the heap and discards no Ace |
| Games.PlayFromConserves | game.py:47-79 | full play loses no card |
| Games.PlayFromSettles | game.py:47-79 | full play from a stock that is a non-empty multiple of four ends settled, with no move left for the strategy |
| Games.Game.Play | game.py:37-79 | fails iff the game is not initialized or is already finished, without changes; fails with EmptyStock iff the stock's size is not a multiple of four; otherwise finishes the game and returns the heap's size; the final state is what full play specifies |
| Games.HeapAtMostSolved | game.py:126-129 | a heap of deck cards that holds no Ace has at most 48 cards |
| Games.GameScoreAtMostSolved | game.py:37-79 | a full game from any order of the deck empties the stock and scores at most 48 |
| Simulation.PlayTrial | main.py:8-12 | a trial's score is the heap size of the full game, and at most 48 |

## Left out

- Printing is not modelled. This covers `print_tableau`, `print_internals`, the `PrintOptions` branches in `play` and make_move's message (game.py:42-45, 49-61, 64-72, 75-77, 153-154, 163-177), and `Card.__repr__` with its memo fields (cards.py:72-83). `ShortName` is the pure `__str__`.
- The shuffle and its seed (game.py:24-28) are not modelled, since they come from a random number library. `Initialize` and `PlayTrial` receive the stock in the order after the shuffle. `PlayTrial` requires that order to be a permutation of `DECK`.
- `GameOptions` is not modelled. Options only select printing and the seed.
- The command line, timing, statistics and strategy factory of main.py are not modelled.
- main.py:10 builds `GameOptions(rng=rng, ...)`, which the constructor at game.py:185 does not accept. `PlayTrial` models the trial without options.
- The random, trivial-removal and minimization strategies are named by main.py, but their code is not part of this model.
- Games.Game.Initialize: the strategy is one of the modelled `Strategy` values, not an arbitrary object with a `move` method. A move one of them proposes is always valid (`StrategyMovesValid`). An arbitrary strategy could propose a pop from an empty pile, which the source does not guard against.
- Cards are compared by value, while Python compares `Card` objects by identity. `DECK` holds each card once, so the two agree for every game dealt from it.
- The `NotImplemented` result of `OrderedEnum` for comparisons across enumerations (cards.py:7, 12, 17, 22) is excluded by typing: ranks compare only with ranks, and suits only with suits.
- Games.Game.constructor gives a fresh game an empty stock, an empty heap and four empty piles. game.py:9-11 creates none of these attributes, so in the source, calling `deal`, `can_move`, `clear_all` or `peek` before `initialize` raises AttributeError. In the model, `Deal` fails with EmptyStock, `CanMove` returns false and the clearing methods change nothing. The missing-attribute error itself is not modelled.
- Games.Game.BiggestPile returns a `nat`. Python's `None` start value is never returned, because there are always four piles.
- Games.Game.Deal does not itself state that every card is kept. `DealtConserves` proves it about the deal's specification, and `RoundConserves` uses it.
