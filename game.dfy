/**
  The Aces Up game engine: a stock (draw pile, taken from its end), a heap
  (discard pile, only ever appended to) and a tableau of four piles whose last
  card is the visible top. The first part of the module gives the facts about
  tableaus that the engine relies on; the class `Game` holds the mutable state.
 */
module Games {
  import opened Wrappers
  import opened Cards
  import opened Strategies

  /** The number of piles in the tableau. */
  const TableauSize: nat := 4

  /** The exceptions `Game` raises. */
  datatype GameError =
    | NotInitialized   // play before initialize
    | AlreadyFinished  // play on a finished game
    | EmptyStock       // a draw from an empty stock (list.pop on an empty list)

  // ---------------------------------------------------------------------------
  // Piles and tableaus

  /** The visible card of a pile. */
  function Top(pile: seq<Card>): Card
    requires pile != []
  {
    pile[|pile| - 1]
  }

  /** A pile with its top card taken off. */
  function WithoutTop(pile: seq<Card>): (rest: seq<Card>)
    requires pile != []
    ensures rest + [Top(pile)] == pile
  {
    pile[..|pile| - 1]
  }

  /** Card `c` is beaten by the top of some pile of `tableau` other than pile `idx`. */
  predicate Beaten(tableau: seq<seq<Card>>, idx: nat, c: Card)
  {
    exists j | 0 <= j < |tableau| :: j != idx && tableau[j] != [] && Top(tableau[j]).Beats(c)
  }

  /** Pile `idx` is empty, or its top is beaten by no other pile's top. */
  predicate TopUnbeaten(tableau: seq<seq<Card>>, idx: nat)
    requires idx < |tableau|
  {
    tableau[idx] == [] || !Beaten(tableau, idx, Top(tableau[idx]))
  }

  /** The fixed point of clearing: no pile's top is beaten by another pile's top. */
  predicate Settled(tableau: seq<seq<Card>>)
  {
    forall i | 0 <= i < |tableau| :: TopUnbeaten(tableau, i)
  }

  /** No card of `h` from position `from` on is an Ace. */
  predicate NoAcesFrom(h: seq<Card>, from: nat)
  {
    forall k | from <= k < |h| :: h[k].rank != Ace
  }

  /**
    What clearing pile `idx` leaves of `pile` while the other piles of
    `tableau` stay as they are: the top is taken off as long as another pile's
    top beats it.
   */
  function Strip(tableau: seq<seq<Card>>, idx: nat, pile: seq<Card>): (r: seq<Card>)
    ensures r <= pile
    decreases |pile|
  {
    if pile != [] && Beaten(tableau, idx, Top(pile)) then Strip(tableau, idx, WithoutTop(pile)) else pile
  }

  /** Every pile of `t` is a prefix of the same pile of `t0`. */
  predicate PilesPrefix(t: seq<seq<Card>>, t0: seq<seq<Card>>)
  {
    |t| == |t0| && forall i | 0 <= i < |t| :: t[i] <= t0[i]
  }

  /** The number of cards in the tableau. */
  function SumLengths(tableau: seq<seq<Card>>): nat
  {
    if tableau == [] then 0 else |tableau[0]| + SumLengths(tableau[1..])
  }

  /** The cards of the tableau, as a multiset. */
  function PilesMultiset(tableau: seq<seq<Card>>): multiset<Card>
  {
    if tableau == [] then multiset{} else multiset(tableau[0]) + PilesMultiset(tableau[1..])
  }

  /** The number of empty piles. */
  function EmptyCount(tableau: seq<seq<Card>>): nat
  {
    if tableau == [] then 0 else (if tableau[0] == [] then 1 else 0) + EmptyCount(tableau[1..])
  }

  /**
    The tableau after the first `n` draws of a deal from `stock`: pile `k`,
    for `k < n`, gets the card `k` places from the end of the stock.
   */
  function DealtTableau(t: seq<seq<Card>>, stock: seq<Card>, n: nat): (r: seq<seq<Card>>)
    requires n <= |stock|
    ensures |r| == |t|
  {
    seq(|t|, k requires 0 <= k < |t| => if k < n then t[k] + [stock[|stock| - 1 - k]] else t[k])
  }

  /** How many cards a deal takes: one per pile, or what is left of the stock. */
  function DealCount(stock: seq<Card>): (n: nat)
    ensures n <= |stock| && n <= TableauSize
    ensures n == TableauSize || n == |stock|
  {
    if |stock| < TableauSize then |stock| else TableauSize
  }

  /** The cards the first `n` draws of a deal take, in the order drawn: from the stock's end backwards. */
  function DealtCards(stock: seq<Card>, n: nat): (r: seq<Card>)
    requires n <= |stock|
    ensures |r| == n
  {
    seq(n, k requires 0 <= k < n => stock[|stock| - 1 - k])
  }

  /** Some pile is empty and some pile holds more than one card. */
  predicate Movable(tableau: seq<seq<Card>>)
  {
    (exists t | 0 <= t < |tableau| :: tableau[t] == []) &&
    (exists s | 0 <= s < |tableau| :: |tableau[s]| > 1)
  }

  /** The top of pile `from` taken off and put on pile `to`. */
  function MoveTop(tableau: seq<seq<Card>>, from: nat, to: nat): (r: seq<seq<Card>>)
    requires from < |tableau| && to < |tableau| && tableau[from] != []
    ensures |r| == |tableau|
    ensures from == to ==> r == tableau
    ensures from != to ==> r[from] == WithoutTop(tableau[from]) && r[to] == tableau[to] + [Top(tableau[from])]
    ensures forall k | 0 <= k < |r| && k != from && k != to :: r[k] == tableau[k]
  {
    var lifted := tableau[from := WithoutTop(tableau[from])];
    lifted[to := lifted[to] + [Top(tableau[from])]]
  }

  /** A move the game can carry out: a source pile with more than one card and an empty target pile. */
  predicate ValidMove(m: Option<Move>, tableau: seq<seq<Card>>)
  {
    m.Some? ==>
      m.value.0 < |tableau| && m.value.1 < |tableau| &&
      |tableau[m.value.0]| > 1 && tableau[m.value.1] == []
  }


  /** A sequence written backwards. */
  function Reversed(s: seq<Card>): (r: seq<Card>)
    ensures |r| == |s|
  {
    if s == [] then [] else Reversed(s[1..]) + [s[0]]
  }

  // ---------------------------------------------------------------------------
  // Lemmas about tableaus

  /**
    Stripping leaves a pile whose top (if any) is unbeaten; every
    card taken off was beaten; and the pile is left whole exactly when its top
    was unbeaten to begin with.
   */
  lemma {:induction false} StripShape(tableau: seq<seq<Card>>, idx: nat, pile: seq<Card>)
    ensures var r := Strip(tableau, idx, pile); r == [] || !Beaten(tableau, idx, Top(r))
    ensures forall k | |Strip(tableau, idx, pile)| <= k < |pile| :: Beaten(tableau, idx, pile[k])
    ensures Strip(tableau, idx, pile) == pile <==> pile == [] || !Beaten(tableau, idx, Top(pile))
    decreases |pile|
  {
    if pile != [] && Beaten(tableau, idx, Top(pile)) {
      var rest := WithoutTop(pile);
      StripShape(tableau, idx, rest);
      assert rest <= pile;
    }
  }

  /** Whether a card is beaten from outside pile `idx` does not depend on pile `idx`. */
  lemma BeatenFrame(t: seq<seq<Card>>, u: seq<seq<Card>>, idx: nat, c: Card)
    requires |t| == |u| && forall j | 0 <= j < |t| && j != idx :: t[j] == u[j]
    ensures Beaten(t, idx, c) <==> Beaten(u, idx, c)
  {
    if Beaten(t, idx, c) {
      var j :| 0 <= j < |t| && j != idx && t[j] != [] && Top(t[j]).Beats(c);
      assert u[j] == t[j];
    }
    if Beaten(u, idx, c) {
      var j :| 0 <= j < |u| && j != idx && u[j] != [] && Top(u[j]).Beats(c);
      assert u[j] == t[j];
    }
  }

  /** An Ace is never beaten, so it is never cleared. */
  lemma BeatenNotAce(tableau: seq<seq<Card>>, idx: nat, c: Card)
    requires Beaten(tableau, idx, c)
    ensures c.rank != Ace
  {
    var j :| 0 <= j < |tableau| && j != idx && tableau[j] != [] && Top(tableau[j]).Beats(c);
    AceUnbeatenTwoBeatsNothing(Top(tableau[j]), c);
  }

  /** How replacing one pile changes the card count, the card multiset and the empty-pile count. */
  lemma TableauUpdate(tableau: seq<seq<Card>>, i: nat, p: seq<Card>)
    requires i < |tableau|
    ensures SumLengths(tableau[i := p]) + |tableau[i]| == SumLengths(tableau) + |p|
    ensures PilesMultiset(tableau[i := p]) + multiset(tableau[i]) == PilesMultiset(tableau) + multiset(p)
    ensures EmptyCount(tableau[i := p]) + (if tableau[i] == [] then 1 else 0)
         == EmptyCount(tableau) + (if p == [] then 1 else 0)
  {
    UpdateSumLengths(tableau, i, p);
    UpdatePilesMultiset(tableau, i, p);
    UpdateEmptyCount(tableau, i, p);
  }

  lemma {:induction false} UpdateSumLengths(tableau: seq<seq<Card>>, i: nat, p: seq<Card>)
    requires i < |tableau|
    ensures SumLengths(tableau[i := p]) + |tableau[i]| == SumLengths(tableau) + |p|
  {
    var u := tableau[i := p];
    if i == 0 {
      assert u[1..] == tableau[1..];
    } else {
      assert u[1..] == tableau[1..][i - 1 := p];
      UpdateSumLengths(tableau[1..], i - 1, p);
    }
  }

  lemma {:induction false} UpdatePilesMultiset(tableau: seq<seq<Card>>, i: nat, p: seq<Card>)
    requires i < |tableau|
    ensures PilesMultiset(tableau[i := p]) + multiset(tableau[i]) == PilesMultiset(tableau) + multiset(p)
  {
    var u := tableau[i := p];
    if i == 0 {
      assert u[1..] == tableau[1..];
    } else {
      assert u[1..] == tableau[1..][i - 1 := p];
      UpdatePilesMultiset(tableau[1..], i - 1, p);
      assert u[0] == tableau[0] && tableau[1..][i - 1] == tableau[i];
      var a, x, y := multiset(tableau[0]), PilesMultiset(u[1..]), PilesMultiset(tableau[1..]);
      assert x + multiset(tableau[i]) == y + multiset(p);
      assert PilesMultiset(u) == a + x;
      assert PilesMultiset(tableau) == a + y;
      assert a + x + multiset(tableau[i]) == a + (x + multiset(tableau[i]));
    }
  }

  lemma {:induction false} UpdateEmptyCount(tableau: seq<seq<Card>>, i: nat, p: seq<Card>)
    requires i < |tableau|
    ensures EmptyCount(tableau[i := p]) + (if tableau[i] == [] then 1 else 0)
         == EmptyCount(tableau) + (if p == [] then 1 else 0)
  {
    var u := tableau[i := p];
    if i == 0 {
      assert u[1..] == tableau[1..];
    } else {
      assert u[1..] == tableau[1..][i - 1 := p];
      UpdateEmptyCount(tableau[1..], i - 1, p);
    }
  }

  /**
    The loop state of clearing one pile: since `t0` only pile `idx` has
    changed, it is a prefix of what it was and strips to the same result, and
    the heap holds `h0` followed by the removed cards, last removed last.
   */
  ghost predicate ClearingFrom(t0: seq<seq<Card>>, h0: seq<Card>, idx: nat, tableau: seq<seq<Card>>, heap: seq<Card>)
  {
    |tableau| == |t0| && idx < |t0| &&
    (forall j | 0 <= j < |t0| && j != idx :: tableau[j] == t0[j]) &&
    tableau[idx] <= t0[idx] &&
    Strip(t0, idx, tableau[idx]) == Strip(t0, idx, t0[idx]) &&
    heap == h0 + Reversed(t0[idx][|tableau[idx]|..])
  }

  /** No pile below `i` other than `idx` has a top that beats `card`. */
  ghost predicate NoneBeatsBefore(t0: seq<seq<Card>>, idx: nat, card: Card, i: nat)
  {
    forall k | 0 <= k < i && k < |t0| && k != idx && t0[k] != [] :: !Top(t0[k]).Beats(card)
  }

  lemma NoneBeatsNext(t0: seq<seq<Card>>, idx: nat, card: Card, i: nat)
    requires NoneBeatsBefore(t0, idx, card, i)
    requires i < |t0| ==> i == idx || t0[i] == [] || !Top(t0[i]).Beats(card)
    ensures NoneBeatsBefore(t0, idx, card, i + 1)
  {
  }

  /** Clearing a beaten top keeps the loop state of clearing one pile. */
  lemma ClearingStep(t0: seq<seq<Card>>, h0: seq<Card>, idx: nat, tableau: seq<seq<Card>>, heap: seq<Card>)
    requires ClearingFrom(t0, h0, idx, tableau, heap)
    requires tableau[idx] != [] && Beaten(t0, idx, Top(tableau[idx]))
    ensures ClearingFrom(t0, h0, idx, tableau[idx := WithoutTop(tableau[idx])], heap + [Top(tableau[idx])])
  {
    var pile, p0 := tableau[idx], t0[idx];
    var u, h := tableau[idx := WithoutTop(pile)], heap + [Top(pile)];
    assert u[idx] <= pile;
    ReversedStep(p0, |pile|);
    assert p0[|pile| - 1] == Top(pile);
    assert h == h0 + Reversed(p0[|u[idx]|..]);
  }

  /** What clearing pile `idx` makes of the tableau: that pile stripped, the others unchanged. */
  function ClearedTableau(t0: seq<seq<Card>>, idx: nat): seq<seq<Card>>
    requires idx < |t0|
  {
    t0[idx := Strip(t0, idx, t0[idx])]
  }

  /** What clearing pile `idx` makes of the heap: the stripped cards appended, the top one first. */
  function ClearedHeap(t0: seq<seq<Card>>, h0: seq<Card>, idx: nat): seq<Card>
    requires idx < |t0|
  {
    h0 + Reversed(t0[idx][|Strip(t0, idx, t0[idx])|..])
  }

  /**
    Once the pile being cleared is empty or has an unbeaten top, tableau and
    heap are what clearing that pile makes of them.
   */
  lemma ClearingDone(t0: seq<seq<Card>>, h0: seq<Card>, idx: nat, tableau: seq<seq<Card>>, heap: seq<Card>)
    requires ClearingFrom(t0, h0, idx, tableau, heap)
    requires tableau[idx] == [] || !Beaten(t0, idx, Top(tableau[idx]))
    ensures tableau == ClearedTableau(t0, idx)
    ensures heap == ClearedHeap(t0, h0, idx)
  {
    var rest := tableau[idx];
    assert rest == Strip(t0, idx, rest);
    assert tableau == t0[idx := rest];
  }

  /**
    Clearing pile `idx` only shortens that pile, leaves its top unbeaten, puts
    on the heap only cards another pile's top beat, and changes nothing exactly
    when that top was unbeaten to begin with.
   */
  lemma ClearedShape(t0: seq<seq<Card>>, h0: seq<Card>, idx: nat)
    requires idx < |t0|
    ensures PilesPrefix(ClearedTableau(t0, idx), t0)
    ensures h0 <= ClearedHeap(t0, h0, idx)
    ensures TopUnbeaten(ClearedTableau(t0, idx), idx)
    ensures |ClearedHeap(t0, h0, idx)| == |h0| <==> TopUnbeaten(t0, idx)
    ensures |ClearedHeap(t0, h0, idx)| == |h0| ==> ClearedTableau(t0, idx) == t0
  {
    var p0, t1, h1 := t0[idx], ClearedTableau(t0, idx), ClearedHeap(t0, h0, idx);
    var rest := Strip(t0, idx, p0);
    StripShape(t0, idx, p0);
    if rest != [] {
      BeatenFrame(t0, t1, idx, Top(rest));
    }
    if |h1| == |h0| {
      assert rest == p0;
    }
  }

  /** Every card clearing pile `idx` puts on the heap was beaten by another pile's top. */
  lemma ClearedBeaten(t0: seq<seq<Card>>, h0: seq<Card>, idx: nat)
    requires idx < |t0|
    ensures forall k | |h0| <= k < |ClearedHeap(t0, h0, idx)| :: Beaten(t0, idx, ClearedHeap(t0, h0, idx)[k])
  {
    var p0, h1 := t0[idx], ClearedHeap(t0, h0, idx);
    var n := |Strip(t0, idx, p0)|;
    StripShape(t0, idx, p0);
    var cut := p0[n..];
    assert h1 == h0 + Reversed(cut);
    forall k | |h0| <= k < |h1| ensures Beaten(t0, idx, h1[k]) {
      var j := k - |h0|;
      ReversedAt(cut, j);
      assert h1[k] == cut[|cut| - 1 - j] == p0[|p0| - 1 - j];
    }
  }

  /** Clearing pile `idx` moves cards from the tableau to the heap and loses none. */
  lemma ClearedConserves(t0: seq<seq<Card>>, h0: seq<Card>, idx: nat)
    requires idx < |t0|
    ensures SumLengths(ClearedTableau(t0, idx)) + (|ClearedHeap(t0, h0, idx)| - |h0|) == SumLengths(t0)
    ensures PilesMultiset(ClearedTableau(t0, idx)) + multiset(ClearedHeap(t0, h0, idx))
         == PilesMultiset(t0) + multiset(h0)
  {
    var p0 := t0[idx];
    var rest := Strip(t0, idx, p0);
    var cut := p0[|rest|..];
    StripConserves(t0, idx, rest);
    ReversedMultiset(cut);
    assert multiset(ClearedHeap(t0, h0, idx)) == multiset(h0) + multiset(cut);
  }

  /** Clearing piles `idx`, `idx + 1`, ... in turn: one pass of the clearing loop. */
  function SweepFrom(t: seq<seq<Card>>, h: seq<Card>, idx: nat): (r: (seq<seq<Card>>, seq<Card>))
    ensures |r.0| == |t| && |h| <= |r.1|
    ensures SumLengths(r.0) + |r.1| == SumLengths(t) + |h|
    decreases |t| - idx
  {
    if idx >= |t| then (t, h)
    else
      ClearedShape(t, h, idx);
      ClearedConserves(t, h, idx);
      SweepFrom(ClearedTableau(t, idx), ClearedHeap(t, h, idx), idx + 1)
  }

  /** Passes over all piles, repeated until a pass clears nothing. */
  function Settle(t: seq<seq<Card>>, h: seq<Card>): (r: (seq<seq<Card>>, seq<Card>))
    decreases SumLengths(t)
  {
    var s := SweepFrom(t, h, 0);
    if |s.1| == |h| then s else Settle(s.0, s.1)
  }

  /** A pass only shortens piles and only appends to the heap. */
  lemma {:induction false} SweepShape(t: seq<seq<Card>>, h: seq<Card>, idx: nat)
    ensures PilesPrefix(SweepFrom(t, h, idx).0, t)
    ensures h <= SweepFrom(t, h, idx).1
    decreases |t| - idx
  {
    if idx < |t| {
      var t1, h1 := ClearedTableau(t, idx), ClearedHeap(t, h, idx);
      ClearedShape(t, h, idx);
      SweepShape(t1, h1, idx + 1);
      PilesPrefixTrans(SweepFrom(t1, h1, idx + 1).0, t1, t);
    }
  }

  /** A pass never discards an Ace: every card it clears was beaten. */
  lemma {:induction false} SweepNoAces(t: seq<seq<Card>>, h: seq<Card>, idx: nat)
    ensures NoAcesFrom(SweepFrom(t, h, idx).1, |h|)
    decreases |t| - idx
  {
    if idx < |t| {
      var t1, h1 := ClearedTableau(t, idx), ClearedHeap(t, h, idx);
      ClearedShape(t, h, idx);
      ClearedBeaten(t, h, idx);
      SweepShape(t1, h1, idx + 1);
      SweepNoAces(t1, h1, idx + 1);
      forall k | |h| <= k < |h1| ensures h1[k].rank != Ace {
        BeatenNotAce(t, idx, h1[k]);
      }
      NoAcesChain(h1, SweepFrom(t1, h1, idx + 1).1, |h|);
    }
  }

  /** A pass loses no card. */
  lemma {:induction false} SweepConserves(t: seq<seq<Card>>, h: seq<Card>, idx: nat)
    ensures PilesMultiset(SweepFrom(t, h, idx).0) + multiset(SweepFrom(t, h, idx).1)
         == PilesMultiset(t) + multiset(h)
    decreases |t| - idx
  {
    if idx < |t| {
      ClearedConserves(t, h, idx);
      SweepConserves(ClearedTableau(t, idx), ClearedHeap(t, h, idx), idx + 1);
    }
  }

  /**
    A pass clears nothing exactly when every pile from `idx` on has an
    unbeaten top, and then it changes nothing.
   */
  lemma {:induction false} SweepIdle(t: seq<seq<Card>>, h: seq<Card>, idx: nat)
    ensures |SweepFrom(t, h, idx).1| == |h| <==> forall k | idx <= k < |t| :: TopUnbeaten(t, k)
    ensures |SweepFrom(t, h, idx).1| == |h| ==> SweepFrom(t, h, idx).0 == t
    decreases |t| - idx
  {
    if idx < |t| {
      var t1, h1 := ClearedTableau(t, idx), ClearedHeap(t, h, idx);
      ClearedShape(t, h, idx);
      SweepIdle(t1, h1, idx + 1);
      if |h1| == |h| {
        assert t1 == t;
      }
    }
  }

  /**
    Repeated passes only shorten piles, only append to the heap, never discard
    an Ace and lose no card.
   */
  lemma {:induction false} SettleShape(t: seq<seq<Card>>, h: seq<Card>)
    ensures PilesPrefix(Settle(t, h).0, t)
    ensures h <= Settle(t, h).1
    ensures SumLengths(Settle(t, h).0) + |Settle(t, h).1| == SumLengths(t) + |h|
    ensures NoAcesFrom(Settle(t, h).1, |h|)
    ensures PilesMultiset(Settle(t, h).0) + multiset(Settle(t, h).1) == PilesMultiset(t) + multiset(h)
    decreases SumLengths(t)
  {
    var s := SweepFrom(t, h, 0);
    SweepShape(t, h, 0);
    SweepNoAces(t, h, 0);
    SweepConserves(t, h, 0);
    if |s.1| != |h| {
      var r := Settle(s.0, s.1);
      SettleShape(s.0, s.1);
      PilesPrefixTrans(r.0, s.0, t);
      NoAcesChain(s.1, r.1, |h|);
    }
  }

  /** Repeated passes keep the pile count, only append to the heap and never discard an Ace. */
  lemma SettleHeap(t: seq<seq<Card>>, h: seq<Card>)
    ensures |Settle(t, h).0| == |t|
    ensures h <= Settle(t, h).1
    ensures NoAcesFrom(Settle(t, h).1, |h|)
  {
    SettleShape(t, h);
  }

  /** Repeated passes keep the pile count and lose no card. */
  lemma SettleConserves(t: seq<seq<Card>>, h: seq<Card>)
    ensures |Settle(t, h).0| == |t|
    ensures PilesMultiset(Settle(t, h).0) + multiset(Settle(t, h).1) == PilesMultiset(t) + multiset(h)
  {
    SettleShape(t, h);
  }

  /**
    Repeated passes end with no top beaten, and change nothing exactly when no
    top was beaten to begin with.
   */
  lemma {:induction false} SettleSettled(t: seq<seq<Card>>, h: seq<Card>)
    ensures Settled(Settle(t, h).0)
    ensures |Settle(t, h).1| == |h| <==> Settled(t)
    ensures Settled(t) ==> Settle(t, h) == (t, h)
    decreases SumLengths(t)
  {
    var s := SweepFrom(t, h, 0);
    SweepIdle(t, h, 0);
    SweepShape(t, h, 0);
    if |s.1| == |h| {
      assert s.1 == h;
      assert Settle(t, h) == s;
    } else {
      assert Settle(t, h) == Settle(s.0, s.1);
      SettleSettled(s.0, s.1);
      SettleShape(s.0, s.1);
      assert !Settled(t);
    }
  }

  /** Settling a settled tableau changes nothing. */
  lemma SettleIdempotent(t: seq<seq<Card>>, h: seq<Card>)
    ensures Settle(Settle(t, h).0, Settle(t, h).1) == Settle(t, h)
  {
    SettleSettled(t, h);
    SettleSettled(Settle(t, h).0, Settle(t, h).1);
  }

  /** One more draw of a deal puts the next card from the stock's end on the next pile. */
  lemma DealStep(t: seq<seq<Card>>, stock: seq<Card>, n: nat)
    requires n < |stock| && n < |t|
    ensures DealtTableau(t, stock, n + 1)
         == DealtTableau(t, stock, n)[n := DealtTableau(t, stock, n)[n] + [stock[|stock| - 1 - n]]]
  {
  }

  /** Drawing the stock's last card onto pile `i` keeps every card of stock, tableau and heap. */
  lemma DrawOnto(stock: seq<Card>, t: seq<seq<Card>>, h: seq<Card>, i: nat)
    requires stock != [] && i < |t|
    ensures multiset(WithoutTop(stock)) + (PilesMultiset(t[i := t[i] + [Top(stock)]]) + multiset(h))
         == multiset(stock) + (PilesMultiset(t) + multiset(h))
  {
    var c, rest := Top(stock), WithoutTop(stock);
    var u := t[i := t[i] + [c]];
    UpdatePilesMultiset(t, i, t[i] + [c]);
    assert multiset(t[i] + [c]) == multiset(t[i]) + multiset{c};
    assert multiset(stock) == multiset(rest) + multiset{c} by {
      assert stock == rest + [c];
    }
    forall x ensures (multiset(rest) + (PilesMultiset(u) + multiset(h)))[x]
                  == (multiset(stock) + (PilesMultiset(t) + multiset(h)))[x] {
      assert (PilesMultiset(u) + multiset(t[i]))[x] == (PilesMultiset(t) + (multiset(t[i]) + multiset{c}))[x];
    }
  }

  /** A deal moves cards from the stock's end onto the piles and loses none. */
  lemma {:induction false} DealtConserves(t: seq<seq<Card>>, stock: seq<Card>, h: seq<Card>, n: nat)
    requires n <= |stock| && n <= |t|
    ensures multiset(stock[..|stock| - n]) + (PilesMultiset(DealtTableau(t, stock, n)) + multiset(h))
         == multiset(stock) + (PilesMultiset(t) + multiset(h))
  {
    if n == 0 {
      assert DealtTableau(t, stock, 0) == t;
      assert stock[..|stock|] == stock;
    } else {
      DealtConserves(t, stock, h, n - 1);
      DealStep(t, stock, n - 1);
      DrawNext(stock, DealtTableau(t, stock, n - 1), h, n - 1);
    }
  }

  /** Draw `m` of a deal, stated on the stock's prefixes before and after it. */
  lemma DrawNext(stock: seq<Card>, u: seq<seq<Card>>, h: seq<Card>, m: nat)
    requires m < |stock| && m < |u|
    ensures multiset(stock[..|stock| - (m + 1)]) + (PilesMultiset(u[m := u[m] + [stock[|stock| - 1 - m]]]) + multiset(h))
         == multiset(stock[..|stock| - m]) + (PilesMultiset(u) + multiset(h))
  {
    var rest := stock[..|stock| - m];
    assert Top(rest) == stock[|stock| - 1 - m] && WithoutTop(rest) == stock[..|stock| - (m + 1)];
    DrawOnto(rest, u, h, m);
  }

  /** One more draw of a deal takes the next card from the stock's end. */
  lemma DealtCardsStep(stock: seq<Card>, n: nat)
    requires n < |stock|
    ensures DealtCards(stock, n + 1) == DealtCards(stock, n) + [stock[|stock| - 1 - n]]
  {
  }

  /** The cards a deal takes are the last cards of the stock, reversed. */
  lemma DealtCardsReversed(stock: seq<Card>, n: nat)
    requires n <= |stock|
    ensures DealtCards(stock, n) == Reversed(stock[|stock| - n..])
  {
    var tail := stock[|stock| - n..];
    forall k | 0 <= k < n ensures DealtCards(stock, n)[k] == Reversed(tail)[k] {
      ReversedAt(tail, k);
    }
  }

  lemma {:induction false} ReversedAt(s: seq<Card>, k: nat)
    requires k < |s|
    ensures Reversed(s)[k] == s[|s| - 1 - k]
  {
    if k < |s| - 1 {
      ReversedAt(s[1..], k);
    }
  }

  /** Being a tableau of prefixes is transitive. */
  lemma PilesPrefixTrans(t: seq<seq<Card>>, u: seq<seq<Card>>, v: seq<seq<Card>>)
    requires PilesPrefix(t, u) && PilesPrefix(u, v)
    ensures PilesPrefix(t, v)
  {
    forall i | 0 <= i < |t| ensures t[i] <= v[i] {
      assert t[i] <= u[i] && u[i] <= v[i];
    }
  }

  /** A move relocates one card: the tableau's cards and their number are the same afterwards. */
  lemma MoveTopConserves(tableau: seq<seq<Card>>, from: nat, to: nat)
    requires from < |tableau| && to < |tableau| && tableau[from] != []
    ensures PilesMultiset(MoveTop(tableau, from, to)) == PilesMultiset(tableau)
    ensures SumLengths(MoveTop(tableau, from, to)) == SumLengths(tableau)
  {
    var pile := tableau[from];
    var top, rest := Top(pile), WithoutTop(pile);
    var lifted := tableau[from := rest];
    var moved := lifted[to := lifted[to] + [top]];
    assert MoveTop(tableau, from, to) == moved;
    LiftConserves(tableau, from);
    UpdatePilesMultiset(lifted, to, lifted[to] + [top]);
    UpdateSumLengths(lifted, to, lifted[to] + [top]);
    var mTo := multiset(lifted[to]);
    assert multiset(lifted[to] + [top]) == mTo + multiset{top};
    MultisetCancel(PilesMultiset(moved), PilesMultiset(lifted) + multiset{top}, mTo);
  }

  /** Taking a top card off leaves the rest of the tableau's cards. */
  lemma LiftConserves(tableau: seq<seq<Card>>, from: nat)
    requires from < |tableau| && tableau[from] != []
    ensures PilesMultiset(tableau[from := WithoutTop(tableau[from])]) + multiset{Top(tableau[from])}
         == PilesMultiset(tableau)
    ensures SumLengths(tableau[from := WithoutTop(tableau[from])]) + 1 == SumLengths(tableau)
  {
    var pile := tableau[from];
    var top, rest := Top(pile), WithoutTop(pile);
    var lifted := tableau[from := rest];
    UpdatePilesMultiset(tableau, from, rest);
    UpdateSumLengths(tableau, from, rest);
    var mRest := multiset(rest);
    assert multiset(pile) == mRest + multiset{top} by {
      assert pile == rest + [top];
    }
    MultisetCancel(PilesMultiset(lifted) + multiset{top}, PilesMultiset(tableau), mRest);
  }

  /** Cutting pile `idx` down to a prefix `rest` takes exactly the cut-off cards out of the tableau. */
  lemma StripConserves(tableau: seq<seq<Card>>, idx: nat, rest: seq<Card>)
    requires idx < |tableau| && rest <= tableau[idx]
    ensures PilesMultiset(tableau[idx := rest]) + multiset(tableau[idx][|rest|..]) == PilesMultiset(tableau)
    ensures SumLengths(tableau[idx := rest]) + (|tableau[idx]| - |rest|) == SumLengths(tableau)
  {
    var pile := tableau[idx];
    var cut := pile[|rest|..];
    UpdatePilesMultiset(tableau, idx, rest);
    UpdateSumLengths(tableau, idx, rest);
    assert multiset(pile) == multiset(rest) + multiset(cut) by {
      assert pile == rest + cut;
    }
    assert PilesMultiset(tableau[idx := rest]) + multiset(cut) + multiset(rest)
        == PilesMultiset(tableau) + multiset(rest);
    MultisetCancel(PilesMultiset(tableau[idx := rest]) + multiset(cut), PilesMultiset(tableau), multiset(rest));
  }

  lemma MultisetCancel(a: multiset<Card>, b: multiset<Card>, c: multiset<Card>)
    requires a + c == b + c
    ensures a == b
  {
    forall x ensures a[x] == b[x] {
      assert (a + c)[x] == (b + c)[x];
    }
  }

  /** A valid move keeps the card count and fills one empty pile. */
  lemma ValidMoveMeasure(tableau: seq<seq<Card>>, m: Move)
    requires ValidMove(Some(m), tableau)
    ensures SumLengths(MoveTop(tableau, m.0, m.1)) == SumLengths(tableau)
    ensures EmptyCount(MoveTop(tableau, m.0, m.1)) + 1 == EmptyCount(tableau)
  {
    var (from, to) := m;
    var lifted := tableau[from := WithoutTop(tableau[from])];
    MoveTopConserves(tableau, from, to);
    TableauUpdate(tableau, from, WithoutTop(tableau[from]));
    TableauUpdate(lifted, to, lifted[to] + [Top(tableau[from])]);
  }

  /** When a move exists, its source and target are necessarily different piles. */
  lemma MovableDistinct(tableau: seq<seq<Card>>)
    ensures Movable(tableau) <==>
      exists s, t | 0 <= s < |tableau| && 0 <= t < |tableau| :: s != t && tableau[t] == [] && |tableau[s]| > 1
  {
    if Movable(tableau) {
      var t :| 0 <= t < |tableau| && tableau[t] == [];
      var s :| 0 <= s < |tableau| && |tableau[s]| > 1;
      assert s != t;
    }
  }

  /** The first-possible strategy declines exactly when no move is possible. */
  lemma FirstPossibleIffMovable(tableau: seq<seq<Card>>)
    ensures FirstPossibleMove(tableau).None? <==> !Movable(tableau)
  {
    var r := FirstPossibleMove(tableau);
    if r.Some? {
      assert tableau[r.value.1] == [] && |tableau[r.value.0]| > 1;
    }
  }

  /** Every strategy declines or proposes a move the game can carry out. */
  lemma StrategyMovesValid(s: Strategy, stock: seq<Card>, heap: seq<Card>, tableau: seq<seq<Card>>)
    ensures ValidMove(s.Move(stock, heap, tableau), tableau)
  {
  }

  lemma {:induction false} ReversedMultiset(s: seq<Card>)
    ensures multiset(Reversed(s)) == multiset(s)
  {
    if s != [] {
      ReversedMultiset(s[1..]);
      assert s == [s[0]] + s[1..];
    }
  }

  lemma ReversedStep(p: seq<Card>, k: nat)
    requires 0 < k <= |p|
    ensures Reversed(p[k - 1..]) == Reversed(p[k..]) + [p[k - 1]]
  {
    assert p[k - 1..][1..] == p[k..];
  }

  /** Heap growth in two steps without an Ace is heap growth without an Ace. */
  lemma NoAcesChain(b: seq<Card>, c: seq<Card>, from: nat)
    requires b <= c && NoAcesFrom(b, from) && NoAcesFrom(c, |b|)
    ensures NoAcesFrom(c, from)
  {
    forall k | from <= k < |c| ensures c[k].rank != Ace {
      if k < |b| {
        assert b[k] == c[k];
      }
    }
  }

  /**
    With the cards of the deck in play and no Ace discarded, at most 48 cards
    are on the heap: the solved score is the highest possible.
   */
  lemma HeapAtMostSolved(stock: seq<Card>, heap: seq<Card>, tableau: seq<seq<Card>>)
    requires multiset(stock) + (PilesMultiset(tableau) + multiset(heap)) == multiset(DECK)
    requires NoAcesFrom(heap, 0)
    ensures |heap| <= SolvedScore
  {
    assert multiset(heap) <= multiset(DECK);
    assert NoAces(heap) by {
      forall c | c in heap ensures c.rank != Ace {
        var k :| 0 <= k < |heap| && heap[k] == c;
      }
    }
    NonAcesAtMostSolved(heap);
  }

  /** A stock of `n` cards is used up by complete deals, one card per pile each. */
  function DealsOut(n: nat): bool
  {
    if n == 0 then true else if n < TableauSize then false else DealsOut(n - TableauSize)
  }

  /** A short stock is not used up by complete deals; a complete deal leaves the question to the rest. */
  lemma DealsOutStep(n: nat)
    ensures 0 < n < TableauSize ==> !DealsOut(n)
    ensures n >= TableauSize ==> DealsOut(n) == DealsOut(n - TableauSize)
  {
  }

  /** A stock is used up by complete deals exactly when the pile count divides its size. */
  lemma {:induction false} DealsOutIffMultiple(n: nat)
    ensures DealsOut(n) <==> n % TableauSize == 0
  {
    if n >= TableauSize {
      DealsOutIffMultiple(n - TableauSize);
    }
  }

  // ---------------------------------------------------------------------------
  // The phases of play, as functions of the game's cards

  /** Where every card of a game lies: stock, tableau and heap. */
  datatype Position = Position(stock: seq<Card>, tableau: seq<seq<Card>>, heap: seq<Card>)

  /** Every card of a position, wherever it lies. */
  function PositionCards(p: Position): multiset<Card>
  {
    multiset(p.stock) + (PilesMultiset(p.tableau) + multiset(p.heap))
  }

  /**
    One step of the move phase: when some pile is empty and some pile holds
    more than one card and the strategy proposes a move, the tableau and heap
    after making it and clearing; None otherwise. A step leaves fewer cards on
    the tableau, or as many with fewer empty piles.
   */
  function MoveStep(s: Strategy, stock: seq<Card>, t: seq<seq<Card>>, h: seq<Card>): (r: Option<(seq<seq<Card>>, seq<Card>)>)
    requires |t| == TableauSize
    ensures r.Some? ==> |r.value.0| == TableauSize
    ensures r.Some? ==> SumLengths(r.value.0) < SumLengths(t) ||
                        (SumLengths(r.value.0) == SumLengths(t) && EmptyCount(r.value.0) < EmptyCount(t))
  {
    if !Movable(t) then None
    else match s.Move(stock, h, t)
      case None => None
      case Some(m) =>
        StrategyMovesValid(s, stock, h, t);
        ValidMoveMeasure(t, m);
        var moved := MoveTop(t, m.0, m.1);
        SettleShape(moved, h);
        SettleSettled(moved, h);
        Some(Settle(moved, h))
  }

  /** A step happens exactly when a move is possible and the strategy proposes one, and it ends settled. */
  lemma MoveStepShape(s: Strategy, stock: seq<Card>, t: seq<seq<Card>>, h: seq<Card>)
    requires |t| == TableauSize
    ensures MoveStep(s, stock, t, h).None? <==> !Movable(t) || s.Move(stock, h, t).None?
    ensures MoveStep(s, stock, t, h).Some? ==> Settled(MoveStep(s, stock, t, h).value.0)
  {
    if Movable(t) && s.Move(stock, h, t).Some? {
      var m := s.Move(stock, h, t).value;
      StrategyMovesValid(s, stock, h, t);
      SettleSettled(MoveTop(t, m.0, m.1), h);
    }
  }

  /** The move phase of a round: steps until no move is possible or the strategy declines. */
  function MovePhase(s: Strategy, stock: seq<Card>, t: seq<seq<Card>>, h: seq<Card>): (r: (seq<seq<Card>>, seq<Card>))
    requires |t| == TableauSize
    ensures |r.0| == TableauSize
    decreases SumLengths(t), EmptyCount(t)
  {
    match MoveStep(s, stock, t, h)
    case None => (t, h)
    case Some(next) => MovePhase(s, stock, next.0, next.1)
  }

  /** The move phase only appends to the heap and never discards an Ace. */
  lemma {:induction false} MovePhaseHeap(s: Strategy, stock: seq<Card>, t: seq<seq<Card>>, h: seq<Card>)
    requires |t| == TableauSize
    ensures h <= MovePhase(s, stock, t, h).1
    ensures NoAcesFrom(MovePhase(s, stock, t, h).1, |h|)
    decreases SumLengths(t), EmptyCount(t)
  {
    match MoveStep(s, stock, t, h)
    case None =>
    case Some(next) =>
      var m := s.Move(stock, h, t).value;
      StrategyMovesValid(s, stock, h, t);
      SettleShape(MoveTop(t, m.0, m.1), h);
      MovePhaseHeap(s, stock, next.0, next.1);
      NoAcesChain(next.1, MovePhase(s, stock, next.0, next.1).1, |h|);
  }

  /** The move phase loses no card and adds none. */
  lemma {:induction false} MovePhaseConserves(s: Strategy, stock: seq<Card>, t: seq<seq<Card>>, h: seq<Card>)
    requires |t| == TableauSize
    ensures PilesMultiset(MovePhase(s, stock, t, h).0) + multiset(MovePhase(s, stock, t, h).1)
         == PilesMultiset(t) + multiset(h)
    decreases SumLengths(t), EmptyCount(t)
  {
    match MoveStep(s, stock, t, h)
    case None =>
    case Some(next) =>
      var m := s.Move(stock, h, t).value;
      StrategyMovesValid(s, stock, h, t);
      MoveTopConserves(t, m.0, m.1);
      SettleShape(MoveTop(t, m.0, m.1), h);
      MovePhaseConserves(s, stock, next.0, next.1);
  }

  /**
    The move phase keeps a settled tableau settled and ends where no further
    step is possible: no move, or the strategy declines.
   */
  lemma {:induction false} MovePhaseSettles(s: Strategy, stock: seq<Card>, t: seq<seq<Card>>, h: seq<Card>)
    requires |t| == TableauSize
    ensures Settled(t) ==> Settled(MovePhase(s, stock, t, h).0)
    ensures MoveStep(s, stock, MovePhase(s, stock, t, h).0, MovePhase(s, stock, t, h).1).None?
    decreases SumLengths(t), EmptyCount(t)
  {
    match MoveStep(s, stock, t, h)
    case None =>
    case Some(next) =>
      MoveStepShape(s, stock, t, h);
      MovePhaseSettles(s, stock, next.0, next.1);
  }

  /**
    One round: a card from the stock's end onto each pile in turn, then
    clearing, then the move phase. With fewer cards in the stock than piles
    the deal stops when the stock runs out and the round ends there.
   */
  function Round(s: Strategy, p: Position): (r: Position)
    requires |p.tableau| == TableauSize
    ensures |r.tableau| == TableauSize
    ensures r.stock == p.stock[..|p.stock| - DealCount(p.stock)]
  {
    var n := DealCount(p.stock);
    var rest := p.stock[..|p.stock| - n];
    var dealt := DealtTableau(p.tableau, p.stock, n);
    if n < TableauSize then Position(rest, dealt, p.heap)
    else
      var settled := Settle(dealt, p.heap);
      SettleShape(dealt, p.heap);
      var after := MovePhase(s, rest, settled.0, settled.1);
      Position(rest, after.0, after.1)
  }

  /** The two ways a round goes: the deal stops short, or the round runs to its move phase. */
  lemma RoundUnfold(s: Strategy, p: Position)
    requires |p.tableau| == TableauSize
    ensures DealCount(p.stock) < TableauSize ==>
      Round(s, p) == Position(p.stock[..|p.stock| - DealCount(p.stock)],
                              DealtTableau(p.tableau, p.stock, DealCount(p.stock)), p.heap)
    ensures DealCount(p.stock) == TableauSize ==>
      var settled := Settle(DealtTableau(p.tableau, p.stock, TableauSize), p.heap);
      |settled.0| == TableauSize &&
      Round(s, p) == Position(p.stock[..|p.stock| - TableauSize],
                              MovePhase(s, p.stock[..|p.stock| - TableauSize], settled.0, settled.1).0,
                              MovePhase(s, p.stock[..|p.stock| - TableauSize], settled.0, settled.1).1)
  {
    SettleShape(DealtTableau(p.tableau, p.stock, DealCount(p.stock)), p.heap);
  }

  /** A round only appends to the heap and never discards an Ace. */
  lemma RoundHeap(s: Strategy, p: Position)
    requires |p.tableau| == TableauSize
    ensures p.heap <= Round(s, p).heap
    ensures NoAcesFrom(Round(s, p).heap, |p.heap|)
  {
    if DealCount(p.stock) < TableauSize {
      assert Round(s, p).heap == p.heap;
    } else {
      FullRoundHeap(s, p);
    }
  }

  lemma FullRoundHeap(s: Strategy, p: Position)
    requires |p.tableau| == TableauSize && DealCount(p.stock) == TableauSize
    ensures p.heap <= Round(s, p).heap
    ensures NoAcesFrom(Round(s, p).heap, |p.heap|)
  {
    var rest := p.stock[..|p.stock| - TableauSize];
    var dealt := DealtTableau(p.tableau, p.stock, TableauSize);
    var settled := Settle(dealt, p.heap);
    SettleHeap(dealt, p.heap);
    var after := MovePhase(s, rest, settled.0, settled.1);
    MovePhaseHeap(s, rest, settled.0, settled.1);
    NoAcesChain(settled.1, after.1, |p.heap|);
    assert Round(s, p).heap == after.1;
  }

  /** A round loses no card and adds none. */
  lemma RoundConserves(s: Strategy, p: Position)
    requires |p.tableau| == TableauSize
    ensures PositionCards(Round(s, p)) == PositionCards(p)
  {
    if DealCount(p.stock) < TableauSize {
      ShortRoundConserves(s, p);
    } else {
      FullRoundConserves(s, p);
    }
  }

  lemma ShortRoundConserves(s: Strategy, p: Position)
    requires |p.tableau| == TableauSize && DealCount(p.stock) < TableauSize
    ensures PositionCards(Round(s, p)) == PositionCards(p)
  {
    var n := DealCount(p.stock);
    DealtConserves(p.tableau, p.stock, p.heap, n);
    assert Round(s, p) == Position(p.stock[..|p.stock| - n], DealtTableau(p.tableau, p.stock, n), p.heap);
  }

  lemma FullRoundConserves(s: Strategy, p: Position)
    requires |p.tableau| == TableauSize && DealCount(p.stock) == TableauSize
    ensures PositionCards(Round(s, p)) == PositionCards(p)
  {
    var rest := p.stock[..|p.stock| - TableauSize];
    var dealt := DealtTableau(p.tableau, p.stock, TableauSize);
    DealtConserves(p.tableau, p.stock, p.heap, TableauSize);
    var settled := Settle(dealt, p.heap);
    SettleConserves(dealt, p.heap);
    var after := MovePhase(s, rest, settled.0, settled.1);
    MovePhaseConserves(s, rest, settled.0, settled.1);
    assert Round(s, p) == Position(rest, after.0, after.1);
  }

  /** A complete round ends with a settled tableau on which the strategy makes no further move. */
  lemma RoundSettles(s: Strategy, p: Position)
    requires |p.tableau| == TableauSize && DealCount(p.stock) == TableauSize
    ensures Settled(Round(s, p).tableau)
    ensures MoveStep(s, Round(s, p).stock, Round(s, p).tableau, Round(s, p).heap).None?
  {
    var rest := p.stock[..|p.stock| - TableauSize];
    var dealt := DealtTableau(p.tableau, p.stock, TableauSize);
    var settled := Settle(dealt, p.heap);
    SettleHeap(dealt, p.heap);
    SettleSettled(dealt, p.heap);
    var after := MovePhase(s, rest, settled.0, settled.1);
    assert Round(s, p) == Position(rest, after.0, after.1);
    MovePhaseSettles(s, rest, settled.0, settled.1);
  }

  /** Rounds until the stock is empty: the whole of a game's play. */
  function PlayFrom(s: Strategy, p: Position): (r: Position)
    requires |p.tableau| == TableauSize
    ensures |r.tableau| == TableauSize
    decreases |p.stock|
  {
    if p.stock == [] then p
    else
      var q := Round(s, p);
      if DealCount(p.stock) < TableauSize then q else PlayFrom(s, q)
  }

  /** The three ways play goes on from a position: it is over, ends in this round, or goes on after it. */
  lemma PlayFromUnfold(s: Strategy, p: Position)
    requires |p.tableau| == TableauSize
    ensures p.stock == [] ==> PlayFrom(s, p) == p
    ensures p.stock != [] && |p.stock| < TableauSize ==> PlayFrom(s, p) == Round(s, p)
    ensures |p.stock| >= TableauSize ==> PlayFrom(s, p) == PlayFrom(s, Round(s, p))
  {
  }

  /**
    How one round changes what is left of play: after a complete round play
    goes on from the new position, and after a short one play is over.
   */
  lemma PlayFromAfterRound(s: Strategy, before: Position, after: Position)
    requires |before.tableau| == TableauSize && before.stock != [] && after == Round(s, before)
    ensures |before.stock| >= TableauSize ==>
      PlayFrom(s, after) == PlayFrom(s, before) && DealsOut(|after.stock|) == DealsOut(|before.stock|)
    ensures |before.stock| < TableauSize ==> after == PlayFrom(s, before) && !DealsOut(|before.stock|)
  {
    var n, m := |before.stock|, |after.stock|;
    assert m == n - DealCount(before.stock);
    DealsOutAfterDeal(n, m);
    PlayFromUnfold(s, before);
  }

  /** Taking one complete deal off the stock does not change whether the deals use it up. */
  lemma DealsOutAfterDeal(n: nat, m: nat)
    requires 0 < n && m == n - (if n < TableauSize then n else TableauSize)
    ensures n >= TableauSize ==> DealsOut(m) == DealsOut(n)
    ensures n < TableauSize ==> !DealsOut(n)
  {
    DealsOutStep(n);
  }

  /** Play ends with an empty stock, only appends to the heap and never discards an Ace. */
  lemma {:induction false} PlayFromHeap(s: Strategy, p: Position)
    requires |p.tableau| == TableauSize
    ensures PlayFrom(s, p).stock == []
    ensures p.heap <= PlayFrom(s, p).heap
    ensures NoAcesFrom(PlayFrom(s, p).heap, |p.heap|)
    decreases |p.stock|
  {
    PlayFromUnfold(s, p);
    if p.stock == [] {
    } else {
      var q := Round(s, p);
      RoundHeap(s, p);
      if DealCount(p.stock) == TableauSize {
        PlayFromHeap(s, q);
        NoAcesChain(q.heap, PlayFrom(s, q).heap, |p.heap|);
      }
    }
  }

  /** Play loses no card and adds none. */
  lemma {:induction false} PlayFromConserves(s: Strategy, p: Position)
    requires |p.tableau| == TableauSize
    ensures PositionCards(PlayFrom(s, p)) == PositionCards(p)
    decreases |p.stock|
  {
    PlayFromUnfold(s, p);
    if p.stock != [] {
      var q := Round(s, p);
      RoundConserves(s, p);
      if DealCount(p.stock) == TableauSize {
        PlayFromConserves(s, q);
      }
    }
  }

  /**
    When the stock holds a non-empty multiple of four cards, every round is
    complete and play ends with a settled tableau on which the strategy makes
    no further move.
   */
  lemma {:induction false} PlayFromSettles(s: Strategy, p: Position)
    requires |p.tableau| == TableauSize && p.stock != [] && DealsOut(|p.stock|)
    ensures Settled(PlayFrom(s, p).tableau)
    ensures !Movable(PlayFrom(s, p).tableau) || s.Move(PlayFrom(s, p).stock, PlayFrom(s, p).heap, PlayFrom(s, p).tableau).None?
    decreases |p.stock|
  {
    PlayFromUnfold(s, p);
    var q := Round(s, p);
    RoundSettles(s, p);
    if q.stock != [] {
      PlayFromSettles(s, q);
    } else {
      PlayFromUnfold(s, q);
      MoveStepShape(s, q.stock, q.tableau, q.heap);
    }
  }

  // ---------------------------------------------------------------------------
  // The game state

  /**
    A game played from any order of the 52-card deck, onto four empty piles,
    discards at most the 48 cards that are not Aces.
   */
  lemma GameScoreAtMostSolved(s: Strategy, deck: seq<Card>)
    requires multiset(deck) == multiset(DECK)
    ensures PlayFrom(s, Position(deck, [[], [], [], []], [])).stock == []
    ensures |PlayFrom(s, Position(deck, [[], [], [], []], [])).heap| <= SolvedScore
  {
    var p := Position(deck, [[], [], [], []], []);
    var q := PlayFrom(s, p);
    PlayFromHeap(s, p);
    PlayFromConserves(s, p);
    var empty: seq<seq<Card>> := [[], [], [], []];
    assert PilesMultiset(empty) == multiset{} by {
      assert empty[1..][1..][1..][1..] == [];
    }
    assert PositionCards(p) == multiset(DECK);
    HeapAtMostSolved(q.stock, q.heap, q.tableau);
  }

  class Game {
    var stock: seq<Card>
    var heap: seq<Card>
    var tableau: seq<seq<Card>>
    var strategy: Strategy
    var initialized: bool
    var finished: bool

    /** The tableau has its four piles. */
    ghost predicate Valid()
      reads this
    {
      |tableau| == TableauSize
    }

    /** Every card the game holds, wherever it lies. */
    ghost function AllCards(): multiset<Card>
      reads this
    {
      multiset(stock) + (PilesMultiset(tableau) + multiset(heap))
    }

    /** A game that has not been initialized yet. */
    constructor ()
      ensures Valid() && !initialized && !finished
      ensures stock == [] && heap == [] && tableau == [[], [], [], []]
    {
      stock, heap := [], [];
      tableau := [[], [], [], []];
      strategy := Base;
      initialized, finished := false, false;
    }

    /** Starts a game from an already shuffled deck, four empty piles and the given strategy. */
    method Initialize(deck: seq<Card>, chooser: Strategy)
      modifies this
      ensures Valid() && initialized && !finished
      ensures stock == deck && heap == [] && tableau == [[], [], [], []] && strategy == chooser
    {
      initialized, finished := false, false;
      stock := deck;
      heap := [];
      tableau := [[], [], [], []];
      strategy := chooser;
      initialized := true;
    }

    /** The top card of pile `idx`, or None when the pile is empty. */
    function Peek(idx: nat): (r: Option<Card>)
      reads this
      requires idx < |tableau|
      ensures r.None? <==> tableau[idx] == []
      ensures r.Some? ==> r.value == tableau[idx][|tableau[idx]| - 1]
    {
      var pile := tableau[idx];
      if pile != [] then Some(Top(pile)) else None
    }

    /** Takes the last card off the stock; fails when the stock is empty. */
    method Draw() returns (r: Result<Card, GameError>)
      modifies this`stock
      ensures old(stock) == [] ==> r == Failure(EmptyStock) && stock == []
      ensures old(stock) != [] ==> r == Success(Top(old(stock))) && stock == WithoutTop(old(stock))
    {
      if stock == [] {
        return Failure(EmptyStock);
      }
      var card := Top(stock);
      stock := WithoutTop(stock);
      return Success(card);
    }

    /**
      Deals one card onto each pile, pile 0 first, each taken from the end of
      the stock. With fewer than four cards in the stock the piles after the
      last available card stay as they are and the deal fails.
     */
    method Deal() returns (r: Result<seq<Card>, GameError>)
      requires |tableau| == TableauSize
      modifies this`stock, this`tableau
      ensures r.Success? <==> |old(stock)| >= TableauSize
      ensures r.Failure? ==> r.error == EmptyStock
      ensures tableau == DealtTableau(old(tableau), old(stock), DealCount(old(stock)))
      ensures stock == old(stock)[..|old(stock)| - DealCount(old(stock))]
      ensures r.Success? ==> r.value == DealtCards(old(stock), TableauSize)
    {
      ghost var s0, t0 := stock, tableau;
      var newCards: seq<Card> := [];
      for i := 0 to TableauSize
        invariant i <= |s0| && stock == s0[..|s0| - i]
        invariant tableau == DealtTableau(t0, s0, i)
        invariant newCards == DealtCards(s0, i)
      {
        var drawn := Draw();
        if drawn.Failure? {
          assert |s0| == i && DealCount(s0) == i;
          return Failure(drawn.error);
        }
        var card := drawn.value;
        DealStep(t0, s0, i);
        DealtCardsStep(s0, i);
        tableau := tableau[i := tableau[i] + [card]];
        newCards := newCards + [card];
      }
      assert DealCount(s0) == TableauSize;
      return Success(newCards);
    }

    /** Moves the top of pile `idx` onto the heap. */
    method Clear(idx: nat)
      requires idx < |tableau| && tableau[idx] != []
      modifies this`heap, this`tableau
      ensures heap == old(heap) + [Top(old(tableau[idx]))]
      ensures tableau == old(tableau)[idx := WithoutTop(old(tableau[idx]))]
      ensures AllCards() == old(AllCards())
    {
      var pile := tableau[idx];
      LiftConserves(tableau, idx);
      heap := heap + [Top(pile)];
      tableau := tableau[idx := WithoutTop(pile)];
    }

    /** The lowest index of a longest pile. */
    method BiggestPile() returns (maxIdx: nat)
      requires |tableau| == TableauSize
      ensures maxIdx < TableauSize
      ensures forall k | 0 <= k < TableauSize :: |tableau[k]| <= |tableau[maxIdx]|
      ensures forall k | 0 <= k < maxIdx :: |tableau[k]| < |tableau[maxIdx]|
    {
      var found: Option<nat> := None;
      var maxLength := -1;
      for idx := 0 to TableauSize
        invariant found.None? <==> idx == 0
        invariant found.None? ==> maxLength == -1
        invariant found.Some? ==> found.value < idx && maxLength == |tableau[found.value]|
        invariant forall k | 0 <= k < idx :: |tableau[k]| <= maxLength
        invariant found.Some? ==> forall k | 0 <= k < found.value :: |tableau[k]| < maxLength
      {
        var length := |tableau[idx]|;
        if length > maxLength {
          found := Some(idx);
          maxLength := length;
        }
      }
      maxIdx := found.value;
    }

    /**
      Clears pile `idx`: while another pile's top beats its top, that top goes
      to the heap. Returns how many cards were cleared.
     */
    method ClearIdx(idx: nat) returns (count: nat)
      requires |tableau| == TableauSize && idx < TableauSize
      modifies this`heap, this`tableau
      ensures |tableau| == TableauSize
      ensures tableau == ClearedTableau(old(tableau), idx)
      ensures heap == ClearedHeap(old(tableau), old(heap), idx)
      ensures count == |heap| - |old(heap)|
    {
      ghost var t0, h0 := tableau, heap;
      count := 0;
      var card := Peek(idx);
      while card.Some?
        invariant ClearingFrom(t0, h0, idx, tableau, heap)
        invariant count == |heap| - |h0|
        invariant card == Peek(idx)
        decreases |tableau[idx]|
      {
        var cleared;
        cleared, card := ClearPass(idx, card.value, t0, h0);
        count := count + cleared;
        if cleared == 0 {
          break;
        }
      }
      ClearingDone(t0, h0, idx, tableau, heap);
    }

    /**
      One pass of `ClearIdx` over the other piles in order: each whose top
      beats the current top of pile `idx` clears that top, and the pass goes on
      against the new top until the pile is empty or the piles run out. It
      clears nothing exactly when no other pile's top beats `card`.
     */
    method ClearPass(idx: nat, card: Card, ghost t0: seq<seq<Card>>, ghost h0: seq<Card>)
      returns (cleared: nat, next: Option<Card>)
      requires |t0| == TableauSize && ClearingFrom(t0, h0, idx, tableau, heap) && Peek(idx) == Some(card)
      modifies this`heap, this`tableau
      ensures ClearingFrom(t0, h0, idx, tableau, heap)
      ensures |heap| == |old(heap)| + cleared && next == Peek(idx)
      ensures cleared > 0 ==> |tableau[idx]| < |old(tableau[idx])|
      ensures cleared == 0 ==> tableau == old(tableau) && heap == old(heap) && !Beaten(t0, idx, card)
      ensures !Beaten(t0, idx, card) ==> cleared == 0
    {
      ghost var t1, h1 := tableau, heap;
      cleared := 0;
      next := Some(card);
      for i := 0 to TableauSize
        invariant |t0| == TableauSize && ClearingFrom(t0, h0, idx, tableau, heap)
        invariant |heap| == |h1| + cleared && next == Peek(idx) && next.Some?
        invariant cleared > 0 ==> |tableau[idx]| < |t1[idx]|
        invariant cleared == 0 ==> tableau == t1 && heap == h1 && NoneBeatsBefore(t0, idx, card, i)
        invariant cleared > 0 ==> Beaten(t0, idx, card)
      {
        if i != idx {
          var other := Peek(i);
          if other.Some? && other.value.Beats(next.value) {
            assert t0[i] == tableau[i];
            if cleared == 0 {
              assert next.value == card && Top(t0[i]).Beats(card);
            }
            ClearingStep(t0, h0, idx, tableau, heap);
            cleared := cleared + 1;
            Clear(idx);
            next := Peek(idx);
            if next.None? {
              break;
            }
          } else if cleared == 0 {
            assert t0[i] == tableau[i] && next.value == card;
            NoneBeatsNext(t0, idx, card, i);
          }
        } else if cleared == 0 {
          NoneBeatsNext(t0, idx, card, i);
        }
      }
    }

    /**
      Clears piles until a full pass over them clears nothing, and returns the
      number of cards cleared in all.
     */
    method ClearAll() returns (total: nat)
      requires |tableau| == TableauSize
      modifies this`heap, this`tableau
      ensures |tableau| == TableauSize
      ensures (tableau, heap) == Settle(old(tableau), old(heap))
      ensures total == |heap| - |old(heap)|
      ensures AllCards() == old(AllCards())
    {
      ghost var t0, h0, cards0 := tableau, heap, AllCards();
      total := 0;
      var clearedNow := true;
      while clearedNow
        invariant |tableau| == TableauSize && |h0| <= |heap| && total == |heap| - |h0|
        invariant clearedNow ==> Settle(tableau, heap) == Settle(t0, h0)
        invariant !clearedNow ==> (tableau, heap) == Settle(t0, h0)
        decreases SumLengths(tableau), clearedNow
      {
        clearedNow := false;
        ghost var ts, hs := tableau, heap;
        for idx := 0 to TableauSize
          invariant |tableau| == TableauSize && |hs| <= |heap| && total == |heap| - |h0|
          invariant SweepFrom(tableau, heap, idx) == SweepFrom(ts, hs, 0)
          invariant SumLengths(tableau) + |heap| == SumLengths(ts) + |hs|
          invariant clearedNow <==> |heap| > |hs|
        {
          ghost var before, heapBefore := tableau, heap;
          var count := ClearIdx(idx);
          ClearedConserves(before, heapBefore, idx);
          total := total + count;
          clearedNow := clearedNow || count > 0;
        }
      }
      SettleShape(t0, h0);
      assert AllCards() == cards0 by {
        assert PilesMultiset(tableau) + multiset(heap) == PilesMultiset(t0) + multiset(h0);
      }
    }

    /** A second clearing right after a first one clears nothing and changes nothing. */
    method ClearAllTwice() returns (first: nat, second: nat)
      requires |tableau| == TableauSize
      modifies this`heap, this`tableau
      ensures |tableau| == TableauSize
      ensures (tableau, heap) == Settle(old(tableau), old(heap))
      ensures first == |heap| - |old(heap)| && second == 0
    {
      ghost var t0, h0 := tableau, heap;
      first := ClearAll();
      SettleIdempotent(t0, h0);
      second := ClearAll();
    }

    /** True exactly when some pile is empty and some pile holds more than one card. */
    method CanMove() returns (r: bool)
      ensures r == Movable(tableau)
    {
      var hasEmpty, hasMulti := false, false;
      for i := 0 to |tableau|
        invariant hasEmpty <==> exists k | 0 <= k < i :: tableau[k] == []
        invariant hasMulti <==> exists k | 0 <= k < i :: |tableau[k]| > 1
        invariant !(hasEmpty && hasMulti)
      {
        var pile := tableau[i];
        if !hasEmpty && pile == [] {
          hasEmpty := true;
        } else if !hasMulti && |pile| > 1 {
          hasMulti := true;
        }
        if hasEmpty && hasMulti {
          return true;
        }
      }
      return false;
    }

    /** Puts the top of pile `from` onto pile `to`. */
    method Move(from: nat, to: nat)
      requires |tableau| == TableauSize && from < TableauSize && to < TableauSize && tableau[from] != []
      modifies this`tableau
      ensures |tableau| == TableauSize
      ensures tableau == MoveTop(old(tableau), from, to)
      ensures AllCards() == old(AllCards())
    {
      MoveTopConserves(tableau, from, to);
      var card := Top(tableau[from]);
      tableau := tableau[from := WithoutTop(tableau[from])];
      tableau := tableau[to := tableau[to] + [card]];
    }

    /** Asks the strategy for a move and makes it; false when the strategy declines. */
    method MakeMove() returns (moved: bool)
      requires Valid()
      modifies this`tableau
      ensures Valid()
      ensures moved == strategy.Move(stock, heap, old(tableau)).Some?
      ensures moved ==> ValidMove(strategy.Move(stock, heap, old(tableau)), old(tableau))
      ensures moved ==> tableau == MoveTop(old(tableau), strategy.Move(stock, heap, old(tableau)).value.0,
                                                         strategy.Move(stock, heap, old(tableau)).value.1)
      ensures !moved ==> tableau == old(tableau)
      ensures AllCards() == old(AllCards())
    {
      var m := strategy.Move(stock, heap, tableau);
      StrategyMovesValid(strategy, stock, heap, tableau);
      if m.Some? {
        var (fromIdx, toIdx) := m.value;
        Move(fromIdx, toIdx);
        return true;
      }
      return false;
    }

    /**
      One step of the move phase: when a move is possible, asks the strategy
      for one, makes it and clears. False, with nothing changed, when no move
      is possible or the strategy declines.
     */
    method MoveAndClear() returns (moved: bool)
      requires Valid()
      modifies this`heap, this`tableau
      ensures Valid()
      ensures moved == MoveStep(strategy, stock, old(tableau), old(heap)).Some?
      ensures moved ==> (tableau, heap) == MoveStep(strategy, stock, old(tableau), old(heap)).value
      ensures !moved ==> tableau == old(tableau) && heap == old(heap)
    {
      var canMove := CanMove();
      if !canMove {
        return false;
      }
      moved := MakeMove();
      if moved {
        var _ := ClearAll();
      }
    }

    /**
      The move phase of a round: moves and clears while some pile is empty,
      some pile holds more than one card and the strategy proposes a move.
     */
    method MoveWhilePossible()
      requires Valid()
      modifies this`heap, this`tableau
      ensures Valid()
      ensures (tableau, heap) == MovePhase(strategy, stock, old(tableau), old(heap))
    {
      ghost var t0, h0 := tableau, heap;
      var moved := true;
      while moved
        invariant Valid()
        invariant MovePhase(strategy, stock, tableau, heap) == MovePhase(strategy, stock, t0, h0)
        invariant !moved ==> MoveStep(strategy, stock, tableau, heap).None?
        decreases SumLengths(tableau), EmptyCount(tableau), moved
      {
        moved := MoveAndClear();
      }
    }

    /**
      One round of play: deal a card onto every pile, clear, then the move
      phase. Fails, after a partial deal, when the stock holds fewer cards
      than there are piles.
     */
    method PlayRound() returns (r: Result<seq<Card>, GameError>)
      requires Valid()
      modifies this`stock, this`heap, this`tableau
      ensures Valid()
      ensures r.Success? <==> |old(stock)| >= TableauSize
      ensures r.Failure? ==> r.error == EmptyStock
      ensures Position(stock, tableau, heap) == Round(strategy, Position(old(stock), old(tableau), old(heap)))
    {
      RoundUnfold(strategy, Position(stock, tableau, heap));
      r := Deal();
      if r.Failure? {
        return;
      }
      var _ := ClearAll();
      MoveWhilePossible();
    }

    /**
      The rounds of a game: one round after another while the stock holds
      cards. False when a deal found the stock empty, which happens exactly
      when the stock did not hold a multiple of four cards.
     */
    method PlayRounds() returns (complete: bool)
      requires Valid()
      modifies this`stock, this`heap, this`tableau
      ensures Valid()
      ensures complete <==> DealsOut(|old(stock)|)
      ensures Position(stock, tableau, heap) == PlayFrom(strategy, Position(old(stock), old(tableau), old(heap)))
    {
      ghost var p0, st := Position(stock, tableau, heap), strategy;
      ghost var full := DealsOut(|stock|);
      while |stock| > 0
        invariant Valid() && strategy == st
        invariant PlayFrom(st, Position(stock, tableau, heap)) == PlayFrom(st, p0)
        invariant DealsOut(|stock|) == full
        decreases |stock|
      {
        ghost var before := Position(stock, tableau, heap);
        var dealt := PlayRound();
        PlayFromAfterRound(st, before, Position(stock, tableau, heap));
        if dealt.Failure? {
          return false;
        }
      }
      PlayFromUnfold(st, Position(stock, tableau, heap));
      return true;
    }

    /**
      Plays the game to the end and returns the number of discarded cards;
      fails when the game was not initialized, is already finished, or a deal
      finds the stock empty.
     */
    method Play() returns (r: Result<nat, GameError>)
      requires Valid()
      modifies this`stock, this`heap, this`tableau, this`finished
      ensures Valid()
      ensures r == Failure(NotInitialized) <==> !old(initialized)
      ensures r == Failure(AlreadyFinished) <==> old(initialized) && old(finished)
      ensures r == Failure(EmptyStock) <==> old(initialized) && !old(finished) && |old(stock)| % TableauSize != 0
      ensures r.Failure? && r.error != EmptyStock ==> unchanged(this)
      ensures old(initialized) && !old(finished) ==>
        Position(stock, tableau, heap) == PlayFrom(strategy, Position(old(stock), old(tableau), old(heap)))
      ensures r.Failure? ==> finished == old(finished)
      ensures r.Success? ==> finished && r.value == |heap|
    {
      if !initialized {
        return Failure(NotInitialized);
      } else if finished {
        return Failure(AlreadyFinished);
      }
      DealsOutIffMultiple(|stock|);
      var complete := PlayRounds();
      if !complete {
        return Failure(EmptyStock);
      }
      finished := true;
      return Success(|heap|);
    }
  }
}
