/** Cards, ranks, suits and the canonical 52-card deck the game rebuilds each round. */
module Cards {

  /** Face values of the number ranks 2..10. */
  type Pips = n: int | 2 <= n <= 10 witness 2

  datatype Rank = Ace | Num(pips: Pips) | Jack | Queen | King

  /** A card as the game stores it: a rank and a suit symbol. */
  datatype Card = Card(rank: Rank, suit: string)

  /** The thirteen ranks in the order the source lists them. */
  const Ranks: seq<Rank> :=
    [Ace, Num(2), Num(3), Num(4), Num(5), Num(6), Num(7), Num(8), Num(9), Num(10), Jack, Queen, King]

  /** The four suits exactly as the source spells them; the second one carries a stray comma. */
  const Suits: seq<string> := ["♤", ",♡", "♢", "♧"]

  /** The string a rank is written as ("A", "2", ..., "10", "J", "Q", "K"). */
  function RankName(r: Rank): string
  {
    match r
    case Ace => "A"
    case Num(n) => if n == 10 then "10" else [(48 + n) as char]
    case Jack => "J"
    case Queen => "Q"
    case King => "K"
  }

  /** Decimal reading of a string of digits, as `parseInt` reads a number rank's name. */
  function DecimalValue(s: string): int
  {
    if s == [] then 0 else 10 * DecimalValue(s[..|s| - 1]) + (s[|s| - 1] as int - 48)
  }

  lemma RankNamesAsListed()
    ensures seq(|Ranks|, i requires 0 <= i < |Ranks| => RankName(Ranks[i]))
         == ["A", "2", "3", "4", "5", "6", "7", "8", "9", "10", "J", "Q", "K"]
  {
  }

  /** Distinct ranks are written differently, so the datatype loses nothing of the string encoding. */
  lemma RankNameInjective(a: Rank, b: Rank)
    ensures RankName(a) == RankName(b) ==> a == b
  {
  }

  /** Reading a number rank's name back as a decimal gives its pips. */
  lemma NumNameParses(n: Pips)
    ensures DecimalValue(RankName(Num(n))) == n
  {
    if n == 10 {
      assert RankName(Num(n)) == "10";
      assert "10"[..1] == "1";
    } else {
      assert RankName(Num(n))[..0] == [];
    }
  }

  /** Every rank value occurs in `Ranks`. */
  lemma RanksComplete(r: Rank)
    ensures r in Ranks
  {
    match r
    case Num(n) =>
      assert n == 2 || n == 3 || n == 4 || n == 5 || n == 6 || n == 7 || n == 8 || n == 9 || n == 10;
    case _ =>
  }

  /** Concatenation of a sequence of rows, the source's `.flat()`. */
  function Flatten(rows: seq<seq<Card>>): (r: seq<Card>)
  {
    if rows == [] then [] else Flatten(rows[..|rows| - 1]) + rows[|rows| - 1]
  }

  /** The cards of one rank, one per suit in the order of `suits`. */
  function Row(r: Rank, suits: seq<string>): (row: seq<Card>)
  {
    seq(|suits|, j requires 0 <= j < |suits| => Card(r, suits[j]))
  }

  /** One row per rank, one card per suit in each row: `ranks.map(rank => suits.map(suit => ...))`. */
  function DeckRows(ranks: seq<Rank>, suits: seq<string>): (rows: seq<seq<Card>>)
  {
    seq(|ranks|, i requires 0 <= i < |ranks| => Row(ranks[i], suits))
  }

  const InitialDeck: seq<Card> := Flatten(DeckRows(Ranks, Suits))

  /** Flattening rows of four cards puts card j of row i at position 4 * i + j. */
  lemma {:induction false} FlattenFours(rows: seq<seq<Card>>)
    requires forall i :: 0 <= i < |rows| ==> |rows[i]| == 4
    ensures |Flatten(rows)| == 4 * |rows|
    ensures forall k :: 0 <= k < 4 * |rows| ==> Flatten(rows)[k] == rows[k / 4][k % 4]
  {
    if rows != [] {
      var init := rows[..|rows| - 1];
      FlattenFours(init);
      var f := Flatten(rows);
      assert f == Flatten(init) + rows[|rows| - 1];
      forall k | 0 <= k < 4 * |rows|
        ensures f[k] == rows[k / 4][k % 4]
      {
        if k < 4 * |init| {
          assert f[k] == Flatten(init)[k];
        } else {
          assert k / 4 == |init|;
        }
      }
    }
  }

  /** The deck lists the cards rank by rank, the four suits in turn within each rank. */
  lemma DeckLayout()
    ensures |InitialDeck| == 52
    ensures forall k :: 0 <= k < 52 ==> InitialDeck[k] == Card(Ranks[k / 4], Suits[k % 4])
  {
    FlattenFours(DeckRows(Ranks, Suits));
  }

  /** No card occurs twice in the canonical deck. */
  lemma DeckDistinct()
    ensures |InitialDeck| == 52
    ensures forall a, b :: 0 <= a < b < |InitialDeck| ==> InitialDeck[a] != InitialDeck[b]
  {
    DeckLayout();
  }

  /** A sequence without repeated elements holds each value at most once. */
  lemma {:induction false} DistinctOnce<T>(s: seq<T>)
    requires forall a, b :: 0 <= a < b < |s| ==> s[a] != s[b]
    ensures forall x :: multiset(s)[x] <= 1
  {
    if s != [] {
      var n := |s| - 1;
      DistinctOnce(s[..n]);
      assert s == s[..n] + [s[n]];
      assert s[n] !in s[..n];
    }
  }

  /** The canonical deck holds each card at most once. */
  lemma DeckOnceEach()
    ensures forall c :: multiset(InitialDeck)[c] <= 1
  {
    DeckDistinct();
    DistinctOnce(InitialDeck);
  }

  /** Exactly the cards of the thirteen ranks and four suits are in the deck. */
  lemma DeckComplete(c: Card)
    ensures c in InitialDeck <==> c.suit in Suits
  {
    DeckLayout();
    if c.suit in Suits {
      RanksComplete(c.rank);
      var i :| 0 <= i < 13 && Ranks[i] == c.rank;
      var j :| 0 <= j < 4 && Suits[j] == c.suit;
      assert (4 * i + j) / 4 == i && (4 * i + j) % 4 == j;
      assert InitialDeck[4 * i + j] == c;
    }
    if c in InitialDeck {
      var k :| 0 <= k < 52 && InitialDeck[k] == c;
      assert c.suit == Suits[k % 4];
    }
  }
}
