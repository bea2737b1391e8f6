# Blackjack game engine of the wallet-authenticated card-game backend

This project models the game engine of the backend's API route (`src/app/api/route.ts`) in Dafny and
proves properties of it. The engine has these parts:

- the canonical 52-card deck: 13 ranks times 4 suits, built rank by rank;
- `getRandomCards`, which picks a set of distinct random indices and splits the deck into the cards
  at those indices and the rest, both in deck order;
- `calculateHandValue`, which counts aces as 11 and then demotes them to 1 one at a time while the
  total is over 21;
- one process-wide mutable `gameState`, holding the hands, deck, message and score, and the request
  handlers that change it:
  - the start request (`GET`), which rebuilds the deck and deals two cards each;
  - `hit`, which draws one card for the player and settles 21 or a bust;
  - `stand`, where the dealer draws while under 17 and the round is then settled;
  - the `auth` action and the refusals that leave the state untouched;
- the reply, which masks the dealer's second card while the message is empty.

Layout:

- `cards.dfy` (module `Cards`): ranks, suits and the deck.
- `draw.dfy` (module `Draw`): index filters and the drawing loop.
- `hand.dfy` (module `Hand`):
  - the hand-value specification, `HandValue`;
  - the looping method `CalculateHandValue`, proved against `HandValue`;
  - totals over the deck.
- `game.dfy` (module `Game`):
  - the class `GameState`, with the `gameState` fields plus the score store as a map;
  - its request methods;
  - the settlement rule;
  - the reply masking.

How the model stands in for the parts it cannot run:

- **Randomness.** `Math.random` becomes a nondeterministic choice (`:|`) of an index not yet chosen.
  The ghost out-parameters report which indices were picked.
- **Cryptography.** Signature verification, token signing and token decoding are inputs: a
  `Crypto` value carries whether the signature verifies, the token the signer returns, and the
  decoded address (`None` when `jwt.verify` throws).
- **The score store.** The external key-value store is the field `store: map<string, int>`.
  A missing key reads as 0.

Facts about the code that the model keeps, though a reader might expect otherwise:

- The game state is one global record shared by every caller, not a session per address.
- The store key is the address exactly as the request gives it, not lowercased. Only the token
  check compares addresses case-insensitively (ASCII letters only).
- A round's message is not final: a `hit` after a resolved round still draws and can overwrite the
  message and the score.
- A `stand` after a resolved round, a bust included, settles the round again. The settlement
  compares the raw values, so a busted player at 25 beats a dealer at 18 and gains 100
  (`src/app/api/route.ts:240-243`).
- An unknown action is refused with status 200, the code's default.
- `getRandomCards(deck, n)` terminates whenever `n` is at most the number of values
  `Math.floor(Math.random() * |deck|)` can take. For an empty deck that is the single value 0. So a
  `hit` on an empty deck draws nothing instead of failing. `Draw.Slots` captures this.
- A dealer total of exactly 21 beats a player's 21. The stand settles on the dealer's value first.

## Model

| member | source | states |
|---|---|---|
| Cards.RankNamesAsListed | src/app/api/route.ts:100 | the rank datatype, written out, gives exactly the source's rank strings in order |
| Cards.RankNameInjective | src/app/api/route.ts:100 | distinct ranks have distinct names, so the datatype loses nothing of the string ranks |
| Cards.NumNameParses | src/app/api/route.ts:283 | `parseInt` of a number rank's name gives its face value 2..10 |
| Cards.FlattenFours | src/app/api/route.ts:103 | `.flat()` of rows of four puts card j of row i at position 4i+j |
| Cards.DeckLayout | src/app/api/route.ts:100-103 | the deck has 52 cards; position k holds rank k/4 with suit k%4 |
| Cards.DeckDistinct | src/app/api/route.ts:100-103 | no card occurs twice in the deck |
| Cards.DeckComplete | src/app/api/route.ts:100-103 | a card is in the deck exactly when its suit is one of the four suits, whatever its rank |
| Cards.DistinctOnce | src/app/api/route.ts:103 | a sequence without repeats holds each value at most once as a multiset |
| Cards.DeckOnceEach | src/app/api/route.ts:103 | every card has multiplicity at most 1 in the deck |
| Draw.Range | src/app/api/route.ts:123 | the index set holds exactly 0..n-1 |
| Draw.RangeSize | src/app/api/route.ts:122 | the index range 0..n-1 has n elements |
| Draw.RangeHasRoom | src/app/api/route.ts:122-124 | while fewer than n indices are chosen a fresh index exists, so the index loop can progress |
| Draw.FilterSplit | src/app/api/route.ts:126-128 | the kept and the dropped filters together have the deck's length and its cards (permutation) |
| Draw.FilterCount | src/app/api/route.ts:126 | the drawn part has one card per chosen index inside the deck |
| Draw.FilterKeepsOrder | src/app/api/route.ts:126-128 | each filter lists the deck's elements at strictly increasing positions, exactly the positions its test keeps |
| Draw.FilterNothingChosen | src/app/api/route.ts:126-128 | with no chosen index in range nothing is drawn and the deck is returned whole |
| Draw.FilterSingle | src/app/api/route.ts:126-128 | choosing the single index i draws exactly `deck[i]` and leaves the deck without it |
| Draw.SingleDraw | src/app/api/route.ts:120-130 | one distinct index yields one card from a non-empty deck and nothing from an empty one |
| Draw.MoveDrawn | src/app/api/route.ts:214-216 | appending the drawn cards to a hand and keeping the rest as the deck preserves the cards of deck and hands |
| Draw.GetRandomCards | src/app/api/route.ts:120-130 | `count` distinct in-range indices are chosen; drawn and remaining are the two filters; `count` cards are drawn from a non-empty deck; lengths add up; drawn plus remaining is a permutation of the deck |
| Draw.DrawOne | src/app/api/route.ts:214 | a one-card draw removes exactly one card, at some index i, from a non-empty deck, and nothing from an empty deck |
| Hand.HardIsSoftLessAces | src/app/api/route.ts:276-285 | counting aces as 1 gives the all-11 total less 10 per ace |
| Hand.HandValueRange | src/app/api/route.ts:286-289 | the value lies between the all-1 and the all-11 totals and differs from the latter by a multiple of 10; over 21 only with every ace demoted; at most 21 and below the soft total only if one fewer demotion would bust |
| Hand.HandValueIsBest | src/app/api/route.ts:286-289 | whenever some number of demotions reaches 21 or less, the value is at most 21 and at least that total |
| Hand.TotalAppend | src/app/api/route.ts:276-285 | totals over a concatenation add up |
| Hand.TotalRemove | src/app/api/route.ts:276-285 | removing one card takes its weight off the total |
| Hand.RemoveMatching | src/app/api/route.ts:276-285 | removing the same card from two permuted hands leaves permuted hands |
| Hand.TotalPermutation | src/app/api/route.ts:276-285 | totals do not depend on the order of the cards |
| Hand.HandValuePermutation | src/app/api/route.ts:273-291 | hands with the same cards have the same value |
| Hand.HardTotalBound | src/app/api/route.ts:278-284 | no card counts more than 10 with aces as 1 |
| Hand.RowTotal | src/app/api/route.ts:103 | a row of one rank across the suits weighs that rank's weight once per suit |
| Hand.DeckRowsSplit | src/app/api/route.ts:103 | a deck built from one more rank is the smaller deck followed by that rank's row |
| Hand.DeckRowsTotal | src/app/api/route.ts:103 | a deck built rank by rank over four suits weighs four times the sum over its ranks |
| Hand.RankSumStep | src/app/api/route.ts:100 | adding a rank to a list adds its weight |
| Hand.RankSums | src/app/api/route.ts:100 | one card per rank weighs 95 with the ace at 11, 85 with the ace at 1, and holds one ace |
| Hand.DeckTotals | src/app/api/route.ts:100-103 | the whole deck weighs 380 (aces 11) and 340 (aces 1), and holds four aces |
| Hand.CalculateHandValue | src/app/api/route.ts:273-291 | the loop's result is `HandValue`: the all-11 total less 10 per demoted ace, with the demotions as above |
| Game.ShowDealer | src/app/api/route.ts:165 | while masked the reply has two entries: the dealer's first card (when there is one) and then the `?` placeholder. Unmasked, it lists the dealer's cards in order, one entry per card, with no placeholder |
| Game.MaskHidesHoleCard | src/app/api/route.ts:261 | masked replies of hands with the same first card are equal, so the hole card does not leak |
| Game.UnmaskedShowsHand | src/app/api/route.ts:261 | an unmasked reply determines the dealer's hand |
| Game.Settle | src/app/api/route.ts:232-250 | each of win, lose and draw holds exactly in its own case (dealer bust wins, dealer 21 loses, else the higher value wins, equal draws); the score changes by +100, -100 or 0 accordingly |
| Game.SettleStand | src/app/api/route.ts:232-250 | the settlement code computes `Settle` of the two hand values |
| Game.DealerDraw | src/app/api/route.ts:227-229 | one dealer draw keeps the hand's earlier prefixes, the cards of hand plus deck, and their total value |
| Game.Deal | src/app/api/route.ts:153-154 | the player's two cards are drawn from the full deck, then the dealer's two from the rest; 2, 2 and 48 cards; no card lost or added |
| Game.WholeDeckStops | src/app/api/route.ts:226-230 | if hand plus the whole deck is worth 17 or more, the loop ends on every draw order |
| Game.TotalsSnoc | src/app/api/route.ts:276-285 | adding a card to a hand adds its weight to the soft total and to the ace count |
| Game.StandingHandStops | src/app/api/route.ts:226 | a dealer at 17 stops at once, even when hand plus deck is worth less than 17 |
| Game.AcesStop | src/app/api/route.ts:226-230 | a dealer at 10 facing two aces stops at 21 on either draw, though hand plus deck is worth 12 |
| Game.DealerTurn | src/app/api/route.ts:226-230 | from any hand and deck on which the loop ends for every draw order: the dealer's hand only grows from the deck, ends worth 17 or more, and stops at the first such hand; cards are conserved |
| Game.Regroup | src/app/api/route.ts:226-230 | replacing dealer hand and deck by parts with the same cards keeps the cards of the whole game |
| Game.StandCanFinish | src/app/api/route.ts:226-230 | with all 52 cards accounted for and a player total of at most 323 (aces as 1), dealer hand plus deck are worth at least 17, so the dealer loop ends on every draw order |
| Game.FewCardsStandCanFinish | src/app/api/route.ts:226-230 | the same holds whenever the player holds at most 32 cards, as after a deal and up to 30 hits |
| Game.NoCardTwice | src/app/api/route.ts:105-117 | with all cards accounted for, deck and hands hold 52 cards between them and no card twice |
| Game.GameState.constructor | src/app/api/route.ts:105-117 | the initial state: empty hands, the full deck, empty message, score 0, all 52 cards accounted for |
| Game.GameState.Get | src/app/api/route.ts:135-170 | a missing address is refused with 400 and nothing changes. Otherwise: 2+2 cards are dealt as `Deal` states, 48 remain, all cards are accounted for, the message is empty, the score is the stored one or 0, the store is unchanged, and the reply masks the dealer's second card |
| Game.GameState.Hit | src/app/api/route.ts:213-224 | one card at some index moves from the deck to the end of the player's hand (none from an empty deck); the dealer's hand is untouched; cards are conserved; 21 wins +100, a bust loses -100, otherwise message and score are unchanged |
| Game.GameState.Stand | src/app/api/route.ts:225-250 | for a dealer loop that ends on every draw order: the player's hand is untouched; the dealer's turn is as in `DealerTurn`; message and score change as `Settle` says; the message is then non-empty; cards are conserved |
| Game.GameState.Post | src/app/api/route.ts:173-265 | `auth` answers a token or 401 and changes nothing. A missing token (401), a throwing token check, a mismatched address (401) or an unknown action (200) changes nothing. `hit`/`stand` behave as above, store the new score under the address, and reply with the dealer's hand masked exactly while the message is empty. Card conservation is preserved |

## Left out

- The store client and its helpers (`src/app/api/route.ts:1-91`) are network I/O. The store is a map.
  Failed reads (which return null and so score 0) and failed writes (which are ignored) are not
  modelled, and neither is the `NaN` that `Number` gives for a non-numeric stored value.
- `verifyMessage`, `jwt.sign` and `jwt.verify` are foreign cryptographic calls. Their results are
  inputs. Token expiry is not modelled.
- Request and response plumbing is not modelled: URL, body and `Authorization` header parsing, JSON
  encoding, status codes beyond the ones named, and the `auth success` message text.
- A `POST` body without an `address` makes `address.toLocaleLowerCase()` throw. The model takes the
  address as a string.
- `Game.Lower` lowercases ASCII letters only, while `toLocaleLowerCase` also folds other letters.
- `Draw.GetRandomCards` models only the random draws that add a new index. Draws that repeat an
  index change nothing in the source. The probability distribution is not modelled.
- `Draw.GetRandomCards` requires `count` to be at most the number of distinct random values
  (`Slots`). Beyond that the source loops forever.
- `Game.GameState.Stand` requires `DealerStops`: the dealer loop ends on every order in which the
  cards can be drawn. These are exactly the hands and decks from which no sequence of random
  draws makes the source hang. From any other, some draw order reaches an empty deck with the
  dealer under 17, and the source then loops forever drawing nothing. `Game.StandCanFinish` and `Game.FewCardsStandCanFinish` show when the requirement holds.
- `Game.GameState.Post` carries the same requirement for `stand`.
- `Game.DealerTurn` carries the same requirement.
- Requests are modelled as running to completion, one at a time. The source yields to other
  requests at two points:
  - `await getRedisValue(address)` (`src/app/api/route.ts:161`), after the deal and before the
    score is loaded and the reply built;
  - `await setRedisValue(...)` (`src/app/api/route.ts:257`), after the play and before the reply
    is read from the global state.
  Another request can change the shared state at either point. `Game.GameState.Get`'s reply with an
  empty message and `Game.GameState.Post`'s reply built from the state it left hold only without
  such interleaving.
- `Game.GameState.Hit` and `Game.GameState.Stand` compute the new hand and deck in local variables
  and assign the fields once. In the source, `push` grows the hand in place after each draw.
  Nothing else can observe the fields between those writes.
- The user interface in `src/app/page.tsx` is not part of this model.
