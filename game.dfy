/**
 * The game route: one process-wide game state that a start request resets and deals, and that
 * authorised `hit` and `stand` requests play on; the score is kept per address in an external
 * store.
 */
module Game {
  import opened Cards
  import opened Draw
  import opened Hand

  datatype Option<T> = None | Some(value: T)

  const PlayerWins := "player wins"
  const PlayerLoses := "player loses"
  const Push := "draw"

  /** A card as a JSON reply shows it; `JsonNull` is what `JSON.stringify` writes for a missing element. */
  datatype JsonCard = JsonCard(rank: string, suit: string) | JsonNull

  /** The placeholder that stands for the dealer's second card while a round is open. */
  const Hidden := JsonCard("?", "?")

  function Render(c: Card): JsonCard
  {
    JsonCard(RankName(c.rank), c.suit)
  }

  function RenderAll(hand: seq<Card>): seq<JsonCard>
  {
    seq(|hand|, k requires 0 <= k < |hand| => Render(hand[k]))
  }

  /**
   * The dealer's hand as a reply shows it: every card once the round is over, and otherwise only
   * the first card followed by the placeholder.
   */
  function ShowDealer(hand: seq<Card>, resolved: bool): (r: seq<JsonCard>)
    ensures resolved ==> |r| == |hand| && Hidden !in r
    ensures resolved ==> forall k :: 0 <= k < |hand| ==> r[k] == Render(hand[k])
    ensures !resolved ==> |r| == 2 && r[1] == Hidden
    ensures !resolved && hand != [] ==> r[0] == Render(hand[0])
  {
    if resolved then RenderAll(hand) else [if hand == [] then JsonNull else Render(hand[0]), Hidden]
  }

  /** While masked, the reply depends on the dealer's first card only: the hole card does not leak. */
  lemma MaskHidesHoleCard(a: seq<Card>, b: seq<Card>)
    requires a != [] && b != [] && a[0] == b[0]
    ensures ShowDealer(a, false) == ShowDealer(b, false)
  {
  }

  /** Once revealed, the reply determines the dealer's hand exactly. */
  lemma {:induction false} UnmaskedShowsHand(a: seq<Card>, b: seq<Card>)
    requires ShowDealer(a, true) == ShowDealer(b, true)
    ensures a == b
  {
    assert |a| == |b|;
    forall k | 0 <= k < |a|
      ensures a[k] == b[k]
    {
      assert Render(a[k]) == ShowDealer(a, true)[k] == Render(b[k]);
      RankNameInjective(a[k].rank, b[k].rank);
    }
  }

  /** A JSON reply: the game table, a message with an HTTP status, a signed token, or an escaped exception. */
  datatype Reply =
    | Table(playerHand: seq<JsonCard>, dealerHand: seq<JsonCard>, message: string, score: int)
    | Notice(message: string, status: int)
    | Authenticated(jsonwebtoken: string)
    | Thrown

  /**
   * What the foreign cryptographic calls answer: whether the signature verifies, the token the
   * signer issues, and the address the token verifier decodes (`None` when it throws).
   */
  datatype Crypto = Crypto(signatureValid: bool, signedToken: string, tokenAddress: Option<string>)

  function LowerChar(c: char): char
  {
    if 'A' <= c <= 'Z' then (c as int + 32) as char else c
  }

  function Lower(s: string): string
  {
    seq(|s|, i requires 0 <= i < |s| => LowerChar(s[i]))
  }

  /** The token's address and the claimed one agree up to letter case. */
  predicate SameAddress(a: string, b: string)
  {
    Lower(a) == Lower(b)
  }

  /** A request that passes every check before the action is dispatched. */
  predicate Authorized(action: string, address: string, token: string, crypto: Crypto)
  {
    action != "auth" && token != "" && crypto.tokenAddress.Some? && SameAddress(crypto.tokenAddress.value, address)
  }

  /**
   * How a stand settles once the dealer has stopped: the player wins when the dealer busts,
   * loses when the dealer has exactly 21, and otherwise the higher value wins; equal values are
   * a draw. The second component is the change of score.
   */
  function Settle(player: int, dealer: int): (r: (string, int))
    ensures r.0 == PlayerWins <==> dealer > 21 || (dealer < 21 && player > dealer)
    ensures r.0 == PlayerLoses <==> dealer == 21 || (dealer < 21 && player < dealer)
    ensures r.0 == Push <==> dealer < 21 && player == dealer
    ensures r.1 == (if r.0 == PlayerWins then 100 else if r.0 == PlayerLoses then -100 else 0)
  {
    if dealer > 21 then (PlayerWins, 100)
    else if dealer == 21 then (PlayerLoses, -100)
    else if player > dealer then (PlayerWins, 100)
    else if player < dealer then (PlayerLoses, -100)
    else (Push, 0)
  }

  /**
   * The settlement at the end of `stand`: the dealer's value decides first (a bust wins, exactly
   * 21 loses), otherwise the player's value is compared with it.
   */
  method SettleStand(playerHand: seq<Card>, dealerHand: seq<Card>) returns (message: string, delta: int)
    ensures (message, delta) == Settle(HandValue(playerHand), HandValue(dealerHand))
  {
    var dealerHandValue := CalculateHandValue(dealerHand);
    if dealerHandValue > 21 {
      message, delta := PlayerWins, 100;
    } else if dealerHandValue == 21 {
      message, delta := PlayerLoses, -100;
    } else {
      var playerHandValue := CalculateHandValue(playerHand);
      if playerHandValue > dealerHandValue {
        message, delta := PlayerWins, 100;
      } else if playerHandValue < dealerHandValue {
        message, delta := PlayerLoses, -100;
      } else {
        message, delta := Push, 0;
      }
    }
  }

  /**
   * One pass of the dealer loop moves drawn cards from the deck onto the dealer's hand: the
   * earlier prefixes of the hand stay as they were and the hand and deck together keep their cards,
   * hence their value.
   */
  lemma DealerDraw(hand: seq<Card>, deck: seq<Card>, cards: seq<Card>, remaining: seq<Card>)
    requires multiset(cards) + multiset(remaining) == multiset(deck)
    ensures forall k :: 0 <= k <= |hand| ==> (hand + cards)[..k] == hand[..k]
    ensures multiset(hand + cards) + multiset(remaining) == multiset(hand) + multiset(deck)
    ensures HandValue(hand + cards + remaining) == HandValue(hand + deck)
  {
    assert multiset(hand + cards + remaining) == multiset(hand + deck);
    HandValuePermutation(hand + cards + remaining, hand + deck);
  }

  /**
   * `playerCards`, `dealerCards` and `rest` are what drawing the indices `playerPicks` from `full`,
   * then the indices `dealerPicks` from what was left, produces.
   */
  ghost predicate Dealt(full: seq<Card>, playerPicks: set<int>, dealerPicks: set<int>,
                        playerCards: seq<Card>, dealerCards: seq<Card>, rest: seq<Card>)
  {
    && |playerPicks| == 2 && (forall i :: i in playerPicks ==> 0 <= i < |full|)
    && |dealerPicks| == 2 && (forall i :: i in dealerPicks ==> 0 <= i < |full| - 2)
    && playerCards == Filter(full, playerPicks, true)
    && dealerCards == Filter(Filter(full, playerPicks, false), dealerPicks, true)
    && rest == Filter(Filter(full, playerPicks, false), dealerPicks, false)
  }

  /**
   * The deal of a start request: two random cards of the full deck go to the player, then two
   * random cards of what is left go to the dealer; each hand keeps the order of the deck.
   */
  method Deal(full: seq<Card>) returns (playerCards: seq<Card>, dealerCards: seq<Card>, rest: seq<Card>,
                                        ghost playerPicks: set<int>, ghost dealerPicks: set<int>)
    requires |full| == 52
    ensures Dealt(full, playerPicks, dealerPicks, playerCards, dealerCards, rest)
    ensures |playerCards| == 2 && |dealerCards| == 2 && |rest| == 48
    ensures multiset(rest) + multiset(playerCards) + multiset(dealerCards) == multiset(full)
  {
    var remainingDeck;
    playerCards, remainingDeck, playerPicks := GetRandomCards(full, 2);
    dealerCards, rest, dealerPicks := GetRandomCards(remainingDeck, 2);
  }

  /**
   * The dealer's turn took `hand0` and `deck0` to `hand` and `rest`: cards went from the deck onto
   * the end of the hand, the hand is worth 17 or more, and it is the first hand on the way that is.
   */
  ghost predicate DealerPlayed(hand0: seq<Card>, deck0: seq<Card>, hand: seq<Card>, rest: seq<Card>)
  {
    && |hand0| <= |hand| && hand[..|hand0|] == hand0
    && multiset(hand) + multiset(rest) == multiset(hand0) + multiset(deck0)
    && HandValue(hand) >= 17
    && (forall k :: |hand0| <= k < |hand| ==> HandValue(hand[..k]) < 17)
  }

  /**
   * The dealer loop stops whatever cards it draws: the hand is already worth 17 or more, or the
   * deck still has cards and every card it could draw next leads to a hand and deck that stop in
   * turn. On an empty deck a hand under 17 draws nothing and the loop never ends.
   */
  ghost predicate DealerStops(hand: seq<Card>, deck: seq<Card>)
    decreases |deck|
  {
    || HandValue(hand) >= 17
    || (deck != [] && forall i :: 0 <= i < |deck| ==> DealerStops(hand + [deck[i]], deck[..i] + deck[i + 1..]))
  }

  /** When the whole deck would bring the hand to 17 or more, the dealer loop stops on every draw order. */
  lemma {:induction false} WholeDeckStops(hand: seq<Card>, deck: seq<Card>)
    requires HandValue(hand + deck) >= 17
    ensures DealerStops(hand, deck)
    decreases |deck|
  {
    if HandValue(hand) < 17 {
      assert deck == [] ==> hand + deck == hand;
      forall i | 0 <= i < |deck|
        ensures DealerStops(hand + [deck[i]], deck[..i] + deck[i + 1..])
      {
        var rest := deck[..i] + deck[i + 1..];
        assert deck == deck[..i] + [deck[i]] + deck[i + 1..];
        assert multiset(hand + [deck[i]] + rest) == multiset(hand + deck);
        HandValuePermutation(hand + [deck[i]] + rest, hand + deck);
        WholeDeckStops(hand + [deck[i]], rest);
      }
    }
  }

  /** Totals of a hand built card by card, for working out concrete hands. */
  lemma TotalsSnoc(hand: seq<Card>, c: Card)
    ensures SoftTotal(hand + [c]) == SoftTotal(hand) + Weight(c, Soft)
    ensures AceCount(hand + [c]) == AceCount(hand) + Weight(c, Aces)
  {
    assert (hand + [c])[..|hand|] == hand;
  }

  /** Stopping on every draw order does not need the whole deck to reach 17: a hand at 17 draws nothing. */
  lemma StandingHandStops()
    ensures var hand, deck := [Card(Ace, "♤"), Card(Num(6), "♤")], [Card(Num(5), "♤")];
      DealerStops(hand, deck) && HandValue(hand + deck) < 17
  {
    var a, s, f := Card(Ace, "♤"), Card(Num(6), "♤"), Card(Num(5), "♤");
    TotalsSnoc([], a);
    assert [] + [a] == [a];
    TotalsSnoc([a], s);
    TotalsSnoc([a, s], f);
    assert [a] + [s] == [a, s] && [a, s] + [f] == [a, s, f];
  }

  /** Nor is it needed when every card the dealer can draw next brings the hand to 17 or more. */
  lemma AcesStop()
    ensures var hand, deck := [Card(Num(4), "♤"), Card(Num(6), "♤")], [Card(Ace, "♤"), Card(Ace, "♢")];
      DealerStops(hand, deck) && HandValue(hand + deck) < 17
  {
    var four, six, a1, a2 := Card(Num(4), "♤"), Card(Num(6), "♤"), Card(Ace, "♤"), Card(Ace, "♢");
    var hand, deck := [four, six], [a1, a2];
    TotalsSnoc([], four);
    assert [] + [four] == [four];
    TotalsSnoc([four], six);
    assert [four] + [six] == hand;
    TotalsSnoc(hand, a1);
    TotalsSnoc(hand, a2);
    TotalsSnoc(hand + [a1], a2);
    assert hand + [a1] + [a2] == hand + deck;
    assert DealerStops(hand + [a1], []);
    assert DealerStops(hand + [a2], []);
    assert deck[..0] + deck[1..] == [a2] && deck[..1] + deck[2..] == [a1];
    assert DealerStops(hand + [a1], [a2]);
    assert DealerStops(hand + [a2], [a1]);
    assert forall i :: 0 <= i < |deck| ==> DealerStops(hand + [deck[i]], deck[..i] + deck[i + 1..]);
  }

  /**
   * The dealer loop of `stand`: while the hand is worth less than 17, one random card moves from
   * the deck to the hand. The loop ends exactly when it stops on every draw order; otherwise it
   * can reach an empty deck under 17, where the source spins forever.
   */
  method DealerTurn(hand0: seq<Card>, deck0: seq<Card>) returns (hand: seq<Card>, rest: seq<Card>)
    requires DealerStops(hand0, deck0)
    ensures DealerPlayed(hand0, deck0, hand, rest)
  {
    hand, rest := hand0, deck0;
    var value := CalculateHandValue(hand);
    while value < 17
      invariant value == HandValue(hand)
      invariant |hand0| <= |hand| && hand[..|hand0|] == hand0
      invariant multiset(hand) + multiset(rest) == multiset(hand0) + multiset(deck0)
      invariant forall k :: |hand0| <= k < |hand| ==> HandValue(hand[..k]) < 17
      invariant DealerStops(hand, rest)
      decreases |rest|
    {
      assert rest != [];
      var cards, remaining, i := DrawOne(rest);
      DealerDraw(hand, rest, cards, remaining);
      hand := hand + cards;
      rest := remaining;
      value := CalculateHandValue(hand);
    }
  }

  /** Replacing the outer two of three parts by parts with the same union keeps the whole. */
  lemma Regroup<T>(deck: multiset<T>, player: multiset<T>, dealer: multiset<T>, deck2: multiset<T>, dealer2: multiset<T>)
    requires dealer2 + deck2 == dealer + deck
    ensures deck2 + player + dealer2 == deck + player + dealer
  {
    assert deck2 + player + dealer2 == player + (dealer2 + deck2);
    assert deck + player + dealer == player + (dealer + deck);
  }

  /**
   * Conservation bounds what the dealer can still draw: the 52 cards count 340 with aces at 1, so
   * while the player's cards count at most 323 that way, the dealer's hand and the deck together
   * are worth at least 17 and a stand's dealer loop stops before the deck runs out.
   */
  lemma StandCanFinish(g: GameState)
    requires g.Conserved() && HardTotal(g.playerHand) <= 323
    ensures HandValue(g.dealerHand + g.deck) >= 17
    ensures g.DealerCanFinish()
  {
    var rest := g.dealerHand + g.deck;
    assert multiset(rest + g.playerHand) == multiset(g.deck) + multiset(g.playerHand) + multiset(g.dealerHand);
    DeckTotals();
    TotalPermutation(rest + g.playerHand, InitialDeck, Hard);
    TotalAppend(rest, g.playerHand, Hard);
    HandValueRange(rest);
    WholeDeckStops(g.dealerHand, g.deck);
  }

  /**
   * In particular a stand is safe while the player holds at most 32 cards, as after a deal (two
   * cards) and up to 30 hits.
   */
  lemma FewCardsStandCanFinish(g: GameState)
    requires g.Conserved() && |g.playerHand| <= 32
    ensures g.DealerCanFinish()
  {
    HardTotalBound(g.playerHand);
    StandCanFinish(g);
  }

  /**
   * Under conservation the deck and the hands hold 52 cards between them, and no card is in two
   * places at once, nor twice in one place.
   */
  lemma NoCardTwice(g: GameState)
    requires g.Conserved()
    ensures |g.deck| + |g.playerHand| + |g.dealerHand| == 52
    ensures forall c :: multiset(g.deck)[c] + multiset(g.playerHand)[c] + multiset(g.dealerHand)[c] <= 1
  {
    DeckLayout();
    assert |multiset(g.deck) + multiset(g.playerHand) + multiset(g.dealerHand)| == |multiset(InitialDeck)|;
    DeckOnceEach();
    forall c
      ensures multiset(g.deck)[c] + multiset(g.playerHand)[c] + multiset(g.dealerHand)[c] <= 1
    {
      assert (multiset(g.deck) + multiset(g.playerHand) + multiset(g.dealerHand))[c] == multiset(InitialDeck)[c];
    }
  }

  class GameState {
    var playerHand: seq<Card>
    var dealerHand: seq<Card>
    var deck: seq<Card>
    var message: string
    var score: int
    /** The external score store, keyed by the address exactly as the request gives it. */
    var store: map<string, int>

    /** The state the module starts with: a full deck, empty hands, no message, score 0. */
    constructor (initialStore: map<string, int>)
      ensures playerHand == [] && dealerHand == [] && deck == InitialDeck
      ensures message == "" && score == 0 && store == initialStore
      ensures Conserved()
    {
      playerHand, dealerHand, deck := [], [], InitialDeck;
      message, score := "", 0;
      store := initialStore;
    }

    /** The deck and both hands together hold the 52 canonical cards, each once. */
    ghost predicate Conserved()
      reads this
    {
      multiset(deck) + multiset(playerHand) + multiset(dealerHand) == multiset(InitialDeck)
    }

    /** A stand's dealer loop stops on every draw order from the current hand and deck. */
    ghost predicate DealerCanFinish()
      reads this
    {
      DealerStops(dealerHand, deck)
    }

    /** The reply to a `hit` or `stand`: the dealer's second card is masked while `message` is empty. */
    function View(): Reply
      reads this
    {
      Table(RenderAll(playerHand), ShowDealer(dealerHand, message != ""), message, score)
    }

    /**
     * A hit: one card moves from the deck to the end of the player's hand (none when the deck is
     * empty), and a player value of exactly 21 wins 100 while a bust loses 100.
     */
    twostate predicate HitEffect()
      reads this
    {
      && dealerHand == old(dealerHand)
      && (if old(deck) == [] then playerHand == old(playerHand) && deck == []
          else exists i :: 0 <= i < |old(deck)|
                 && playerHand == old(playerHand) + [old(deck)[i]]
                 && deck == old(deck)[..i] + old(deck)[i + 1..])
      && multiset(deck) + multiset(playerHand) + multiset(dealerHand)
         == old(multiset(deck) + multiset(playerHand) + multiset(dealerHand))
      && (HandValue(playerHand) == 21 ==> message == PlayerWins && score == old(score) + 100)
      && (HandValue(playerHand) > 21 ==> message == PlayerLoses && score == old(score) - 100)
      && (HandValue(playerHand) < 21 ==> message == old(message) && score == old(score))
    }

    /**
     * A stand: the dealer draws from the deck until the hand is worth 17 or more, stopping at the
     * first such hand, and the round is settled; the player's hand is untouched.
     */
    twostate predicate StandEffect()
      reads this
    {
      && playerHand == old(playerHand)
      && DealerPlayed(old(dealerHand), old(deck), dealerHand, deck)
      && (message, score - old(score)) == Settle(HandValue(playerHand), HandValue(dealerHand))
    }

    /**
     * The start request: without an address it is refused; otherwise the deck is rebuilt, the
     * player and then the dealer are dealt two cards from it, the message is cleared and the
     * address's stored score (0 when none) is loaded. The reply always masks the dealer's second card.
     */
    method Get(address: string) returns (reply: Reply, ghost playerPicks: set<int>, ghost dealerPicks: set<int>)
      modifies this
      ensures address == "" ==> reply == Notice("address is required", 400) && unchanged(this)
      ensures address != "" ==>
        && Dealt(InitialDeck, playerPicks, dealerPicks, playerHand, dealerHand, deck)
        && |playerHand| == 2 && |dealerHand| == 2 && |deck| == 48
        && Conserved()
        && message == ""
        && score == (if address in old(store) then old(store)[address] else 0)
        && store == old(store)
        && reply == Table(RenderAll(playerHand), ShowDealer(dealerHand, false), "", score)
    {
      if address == "" {
        reply, playerPicks, dealerPicks := Notice("address is required", 400), {}, {};
        return;
      }
      DeckLayout();
      var playerCards, dealerCards, rest;
      playerCards, dealerCards, rest, playerPicks, dealerPicks := Deal(InitialDeck);
      playerHand, dealerHand, deck, message := playerCards, dealerCards, rest, "";
      score := if address in store then store[address] else 0;
      reply := Table(RenderAll(playerHand), ShowDealer(dealerHand, false), message, score);
    }

    /** The `hit` branch of the action request. */
    method Hit()
      modifies this
      ensures HitEffect()
      ensures store == old(store)
    {
      var cards, remainingDeck, i := DrawOne(deck);
      MoveDrawn(deck, playerHand, dealerHand, cards, remainingDeck);
      var hand := playerHand + cards;
      var playerHandValue := CalculateHandValue(hand);
      var msg, sc := message, score;
      if playerHandValue == 21 {
        msg, sc := PlayerWins, sc + 100;
      } else if playerHandValue > 21 {
        msg, sc := PlayerLoses, sc - 100;
      }
      playerHand, deck, message, score := hand, remainingDeck, msg, sc;
    }

    /** The `stand` branch of the action request: the dealer loop, then the settlement. */
    method Stand()
      requires DealerCanFinish()
      modifies this
      ensures StandEffect()
      ensures store == old(store)
      ensures old(Conserved()) ==> Conserved()
      ensures message != ""
    {
      var hand, rest := DealerTurn(dealerHand, deck);
      var msg, delta := SettleStand(playerHand, hand);
      Regroup(multiset(deck), multiset(playerHand), multiset(dealerHand), multiset(rest), multiset(hand));
      dealerHand, deck, message, score := hand, rest, msg, score + delta;
    }

    /**
     * The action request. `auth` only answers with a token or a refusal; every other action needs
     * a token whose address matches the claimed one up to case. A `hit` or `stand` then plays,
     * stores the score under the address and replies with the table; any other action is refused.
     * Every refusal leaves the game state and the store as they were.
     */
    method Post(action: string, address: string, token: string, crypto: Crypto) returns (reply: Reply)
      requires Authorized(action, address, token, crypto) && action == "stand" ==> DealerCanFinish()
      modifies this
      ensures action == "auth" ==>
        unchanged(this) &&
        reply == (if crypto.signatureValid then Authenticated(crypto.signedToken) else Notice("invalid signature", 401))
      ensures action != "auth" && token == "" ==> unchanged(this) && reply == Notice("token is required", 401)
      ensures action != "auth" && token != "" && crypto.tokenAddress.None? ==> unchanged(this) && reply == Thrown
      ensures action != "auth" && token != "" && crypto.tokenAddress.Some? && !SameAddress(crypto.tokenAddress.value, address) ==>
        unchanged(this) && reply == Notice("invalid token", 401)
      ensures Authorized(action, address, token, crypto) && action != "hit" && action != "stand" ==>
        unchanged(this) && reply == Notice("invalid action", 200)
      ensures Authorized(action, address, token, crypto) && action == "hit" ==>
        HitEffect() && store == old(store)[address := score] && reply == View()
      ensures Authorized(action, address, token, crypto) && action == "stand" ==>
        StandEffect() && store == old(store)[address := score] && message != ""
        && reply == Table(RenderAll(playerHand), ShowDealer(dealerHand, true), message, score)
      ensures old(Conserved()) ==> Conserved()
    {
      if action == "auth" {
        if !crypto.signatureValid {
          return Notice("invalid signature", 401);
        }
        return Authenticated(crypto.signedToken);
      }
      if token == "" {
        return Notice("token is required", 401);
      }
      if crypto.tokenAddress.None? {
        return Thrown;
      }
      if Lower(crypto.tokenAddress.value) != Lower(address) {
        return Notice("invalid token", 401);
      }
      if action == "hit" {
        Hit();
      } else if action == "stand" {
        Stand();
      } else {
        return Notice("invalid action", 200);
      }
      store := store[address := score];
      reply := View();
    }
  }
}
