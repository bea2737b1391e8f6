/** Blackjack hand evaluation: aces count 11 and are demoted to 1, one at a time, while the hand is over 21. */
module Hand {
  import opened Cards

  /** What a total counts per card: points with aces at 11, points with aces at 1, or aces. */
  datatype Measure = Soft | Hard | Aces

  /** The weight of one card under a measure. */
  function Weight(c: Card, m: Measure): nat
  {
    match m
    case Soft => (match c.rank case Ace => 11 case Num(n) => n case _ => 10)
    case Hard => (match c.rank case Ace => 1 case Num(n) => n case _ => 10)
    case Aces => if c.rank == Ace then 1 else 0
  }

  /** Sum of a per-card weight over a hand. */
  function Total(hand: seq<Card>, m: Measure): nat
  {
    if hand == [] then 0 else Total(hand[..|hand| - 1], m) + Weight(hand[|hand| - 1], m)
  }

  /** The total with every ace at 11. */
  function SoftTotal(hand: seq<Card>): nat
  {
    Total(hand, Soft)
  }

  /** The total with every ace at 1. */
  function HardTotal(hand: seq<Card>): nat
  {
    Total(hand, Hard)
  }

  function AceCount(hand: seq<Card>): nat
  {
    Total(hand, Aces)
  }

  function Min(a: int, b: int): int
  {
    if a <= b then a else b
  }

  /**
   * How many aces must go from 11 to 1: none when the soft total is at most 21, otherwise
   * the fewest that bring the total to 21 or below, capped by the number of aces.
   */
  function Demotions(soft: int, aces: nat): nat
  {
    if soft <= 21 then 0 else Min(aces, (soft - 12) / 10)
  }

  /** Demoting every ace takes 10 points off the soft total per ace. */
  lemma {:induction false} HardIsSoftLessAces(hand: seq<Card>)
    ensures HardTotal(hand) == SoftTotal(hand) - 10 * AceCount(hand)
  {
    if hand != [] {
      HardIsSoftLessAces(hand[..|hand| - 1]);
    }
  }

  /** The value of a hand: the soft total less 10 per demoted ace. */
  function HandValue(hand: seq<Card>): int
  {
    SoftTotal(hand) - 10 * Demotions(SoftTotal(hand), AceCount(hand))
  }

  /**
   * The value lies between the hard and the soft total and differs from the soft total by a
   * multiple of 10; a bust value means every ace was demoted; and a value of at most 21 that is
   * below the soft total would bust if one fewer ace were demoted.
   */
  lemma HandValueRange(hand: seq<Card>)
    ensures HardTotal(hand) <= HandValue(hand) <= SoftTotal(hand)
    ensures (SoftTotal(hand) - HandValue(hand)) % 10 == 0
    ensures HandValue(hand) > 21 ==> HandValue(hand) == HardTotal(hand)
    ensures HandValue(hand) <= 21 && HandValue(hand) < SoftTotal(hand) ==> HandValue(hand) + 10 > 21
  {
    HardIsSoftLessAces(hand);
  }

  /**
   * The value is the best total the hand can reach: never below any total of at most 21 that
   * some number of demotions gives, and itself at most 21 whenever such a total exists.
   */
  lemma HandValueIsBest(hand: seq<Card>, j: nat)
    requires j <= AceCount(hand) && SoftTotal(hand) - 10 * j <= 21
    ensures SoftTotal(hand) - 10 * j <= HandValue(hand) <= 21
  {
    HardIsSoftLessAces(hand);
  }

  /** No card counts more than 10 with aces at 1. */
  lemma {:induction false} HardTotalBound(hand: seq<Card>)
    ensures HardTotal(hand) <= 10 * |hand|
  {
    if hand != [] {
      HardTotalBound(hand[..|hand| - 1]);
    }
  }

  /** A total over a concatenation is the sum of the totals of its parts. */
  lemma {:induction false} TotalAppend(a: seq<Card>, b: seq<Card>, m: Measure)
    ensures Total(a + b, m) == Total(a, m) + Total(b, m)
  {
    if b == [] {
      assert a + b == a;
    } else {
      var n := |b| - 1;
      assert (a + b)[..|a + b| - 1] == a + b[..n];
      assert (a + b)[|a + b| - 1] == b[n];
      TotalAppend(a, b[..n], m);
    }
  }

  /** Taking the card at `i` out of a hand takes its weight off the total. */
  lemma TotalRemove(b: seq<Card>, i: int, m: Measure)
    requires 0 <= i < |b|
    ensures Total(b, m) == Total(b[..i] + b[i + 1..], m) + Weight(b[i], m)
  {
    assert b == b[..i] + [b[i]] + b[i + 1..];
    TotalAppend(b[..i] + [b[i]], b[i + 1..], m);
    TotalAppend(b[..i], [b[i]], m);
    TotalAppend(b[..i], b[i + 1..], m);
    assert Total([b[i]], m) == Weight(b[i], m) by { assert [b[i]][..0] == []; }
  }

  /** Removing the same card from two hands with the same cards leaves hands with the same cards. */
  lemma RemoveMatching(a: seq<Card>, b: seq<Card>, i: int)
    requires multiset(a) == multiset(b) && a != [] && 0 <= i < |b| && b[i] == a[|a| - 1]
    ensures multiset(a[..|a| - 1]) == multiset(b[..i] + b[i + 1..])
  {
    var x := b[i];
    assert a == a[..|a| - 1] + [x];
    assert b == b[..i] + [x] + b[i + 1..];
    assert multiset(b[..i] + b[i + 1..]) == multiset(b) - multiset{x};
    assert multiset(a[..|a| - 1]) == multiset(a) - multiset{x};
  }

  /** A total does not depend on the order of the cards. */
  lemma {:induction false} TotalPermutation(a: seq<Card>, b: seq<Card>, m: Measure)
    requires multiset(a) == multiset(b)
    ensures Total(a, m) == Total(b, m)
    decreases |a|
  {
    if a != [] {
      assert a[|a| - 1] in multiset(b);
      var i :| 0 <= i < |b| && b[i] == a[|a| - 1];
      RemoveMatching(a, b, i);
      TotalPermutation(a[..|a| - 1], b[..i] + b[i + 1..], m);
      TotalRemove(b, i, m);
    }
  }

  /** Hands holding the same cards have the same value, whatever their order. */
  lemma HandValuePermutation(a: seq<Card>, b: seq<Card>)
    requires multiset(a) == multiset(b)
    ensures HandValue(a) == HandValue(b)
  {
    TotalPermutation(a, b, Soft);
    TotalPermutation(a, b, Aces);
  }

  /** The sum of the weights of one card of each rank in `ranks`. */
  function RankSum(ranks: seq<Rank>, m: Measure): nat
  {
    if ranks == [] then 0 else RankSum(ranks[..|ranks| - 1], m) + Weight(Card(ranks[|ranks| - 1], ""), m)
  }

  /** A row of cards of one rank weighs that rank's weight once per card. */
  lemma {:induction false} RowTotal(r: Rank, suits: seq<string>, m: Measure)
    ensures Total(Row(r, suits), m) == |suits| * Weight(Card(r, ""), m)
  {
    if suits != [] {
      var n := |suits| - 1;
      assert Row(r, suits)[..n] == Row(r, suits[..n]);
      RowTotal(r, suits[..n], m);
    }
  }

  /** Building a deck from one more rank appends that rank's row. */
  lemma DeckRowsSplit(ranks: seq<Rank>, suits: seq<string>)
    requires ranks != []
    ensures Flatten(DeckRows(ranks, suits))
         == Flatten(DeckRows(ranks[..|ranks| - 1], suits))
          + Row(ranks[|ranks| - 1], suits)
  {
    var rows := DeckRows(ranks, suits);
    assert rows[..|ranks| - 1] == DeckRows(ranks[..|ranks| - 1], suits);
  }

  /** A deck built rank by rank weighs, per measure, the sum over its ranks once per suit. */
  lemma {:induction false} DeckRowsTotal(ranks: seq<Rank>, suits: seq<string>, m: Measure)
    requires |suits| == 4
    ensures Total(Flatten(DeckRows(ranks, suits)), m) == 4 * RankSum(ranks, m)
  {
    if ranks != [] {
      var n := |ranks| - 1;
      DeckRowsSplit(ranks, suits);
      TotalAppend(Flatten(DeckRows(ranks[..n], suits)), Row(ranks[n], suits), m);
      DeckRowsTotal(ranks[..n], suits, m);
      RowTotal(ranks[n], suits, m);
    }
  }

  /** Extending a list of ranks by one rank adds that rank's weight. */
  lemma RankSumStep(ranks: seq<Rank>, k: nat, m: Measure)
    requires k < |ranks|
    ensures RankSum(ranks[..k + 1], m) == RankSum(ranks[..k], m) + Weight(Card(ranks[k], ""), m)
  {
    assert ranks[..k + 1][..k] == ranks[..k];
  }

  /** One card of each rank: 95 with the ace at 11, 85 with the ace at 1, one ace. */
  lemma RankSums(m: Measure)
    ensures RankSum(Ranks, m) == (match m case Soft => 95 case Hard => 85 case Aces => 1)
  {
    assert Ranks[..0] == [];
    RankSumStep(Ranks, 0, m);
    RankSumStep(Ranks, 1, m);
    RankSumStep(Ranks, 2, m);
    RankSumStep(Ranks, 3, m);
    RankSumStep(Ranks, 4, m);
    RankSumStep(Ranks, 5, m);
    RankSumStep(Ranks, 6, m);
    RankSumStep(Ranks, 7, m);
    RankSumStep(Ranks, 8, m);
    RankSumStep(Ranks, 9, m);
    RankSumStep(Ranks, 10, m);
    RankSumStep(Ranks, 11, m);
    RankSumStep(Ranks, 12, m);
    assert Ranks[..13] == Ranks;
  }

  /**
   * The canonical deck is worth 380 with aces at 11 and 340 with aces at 1, and holds four aces.
   */
  lemma DeckTotals()
    ensures SoftTotal(InitialDeck) == 380
    ensures HardTotal(InitialDeck) == 340
    ensures AceCount(InitialDeck) == 4
  {
    RankSums(Soft);
    RankSums(Hard);
    RankSums(Aces);
    DeckRowsTotal(Ranks, Suits, Soft);
    DeckRowsTotal(Ranks, Suits, Hard);
    DeckRowsTotal(Ranks, Suits, Aces);
  }

  /**
   * `calculateHandValue`: one pass adds up the cards with aces at 11 while counting the aces,
   * then aces are demoted one at a time while the total is over 21.
   */
  method CalculateHandValue(hand: seq<Card>) returns (value: int)
    ensures value == HandValue(hand)
  {
    value := 0;
    var aceCount := 0;
    for i := 0 to |hand|
      invariant value == SoftTotal(hand[..i])
      invariant aceCount == AceCount(hand[..i])
    {
      var card := hand[i];
      assert hand[..i + 1][..i] == hand[..i];
      if card.rank == Ace {
        aceCount := aceCount + 1;
        value := value + 11;
      } else if card.rank in {Jack, Queen, King} {
        value := value + 10;
      } else {
        NumNameParses(card.rank.pips);
        value := value + DecimalValue(RankName(card.rank));
      }
    }
    assert hand[..|hand|] == hand;
    ghost var soft, aces := value, aceCount;
    while value > 21 && aceCount > 0
      invariant 0 <= aceCount <= aces
      invariant value == soft - 10 * (aces - aceCount)
      invariant aces - aceCount <= Demotions(soft, aces)
    {
      value := value - 10;
      aceCount := aceCount - 1;
    }
  }
}
