# Cribbage engine: a verified model

This project models the core of `pycards`, a playing-card library with a
Cribbage engine, and proves properties of the model. The model covers:

- **Cards and collections.** The `Card` record and the `Cards` collection:
  the two-character text form, ordering by rank, dealing, playing, and the
  flush and straight enumerators. It also covers the older `pycribbage`
  deck with its spelled-out card names.
- **Players.** The `Player` record and the `Players` group: the dealer flag,
  its rotation, and the generator of the seat order.
- **The hand scorer.** Fifteens, pairs, flushes, runs and his nobs, over a
  hand plus the turn-up card, and the capped card value.
- **The pegging phase.** Players play in seat order; a street stops when no
  one can play without passing 31.
- **Both engines.**
  - The newer `Cribbage` class plays from copies of the hands, refills the
    deal pile from the discard pile and gives up after 1000 deals. Its
    refill and discards are modelled with `play_all` doing what its doc
    comment says, moving every card; the code as written moves only every
    other card (see Findings).
  - The older one plays its hands out while pegging and refills the deal
    pile by copying the discard pile. Its crib discard is also modelled
    with the documented `play_all`.

## How the model is built

- **Values.** Cards, suits and ranks are datatypes: `Card(suit, rank)`,
  with rank 0 (Ace) to 12 (King). A collection of cards is a `seq<Card>`.
- **Objects with state.** `Cards`, `Player`, `Players`, the order generator
  and both `Cribbage` classes are Dafny classes. Their list fields are `seq`
  fields that the methods reassign.
- **Errors.** Python exceptions become `Result`/`Outcome` values carrying
  `ValueError`, `KeyError`, `IndexError` or `TimeoutError`.
- **Randomness.** Every random choice is a nondeterministic choice in the
  method body. A shuffle promises only to keep the same cards; a random
  card or player is any member.
- **Card conservation in the newer engine.** `Total()` is the multiset of
  every card in the deal pile, the discard pile, the crib and the hands.
  Every method of the game preserves it. `Conserved()` says it is exactly
  one standard deck.
- **Card conservation in the older engine.** It does not conserve cards.
  Its model proves what it does instead; see Findings.

Files:

| file | module | models |
|---|---|---|
| wrappers.dfy | Wrappers | `Option`, `Result`, `Outcome` and the error kinds |
| cards.dfy | Cards | `Suit`, `Card`, the text codec, ordering, removal, flush and straight specifications |
| card_pile.dfy | CardPiles | the `Cards` class and its loops (`get_flushes`, `get_straights`) |
| values.dfy | CribbageValues | `cribbage_card_value`, `compute_current_pegging_score` |
| players.dfy | Players | `Player`, `Players`, the player order generator |
| scoring.dfy | Scoring | `_score_hand` (the same code in both engines) |
| cribbage_players.dfy | CribbagePlayers | `can_peg`, `give_cards_to_crib`, `play_pegging_card` (both generations) |
| cribbage_rules.dfy | CribbageRules | rules shared by both engines: `cards_per_player`, `_find_winner`, dealing, crib collection, the pegging loop |
| cribbage_game.dfy | CribbageGame | the newer `Cribbage` class |
| legacy_cribbage.dfy | LegacyCribbage | the older `Cribbage` class |
| legacy_deck.dfy | LegacyDeck | `pycribbage` `Card.__repr__` and `Deck` |

## Model

| member | source | states |
|---|---|---|
| Cards.SuitFromString | pycards/cards.py:43-58 | Succeeds exactly on "S", "H", "D" and "C", returning the suit with that initial; any other string is a ValueError |
| Cards.RankFromSymbol | pycards/cards.py:14-30 | Succeeds exactly on the 13 symbols A,2..9,T,J,Q,K, returning the rank with that symbol; any other symbol is a KeyError |
| Cards.DecodeEncode | pycards/cards.py:76-100 | Decoding the two-character form of any card gives that card back; the form has no space |
| Cards.EncodeDecode | pycards/cards.py:76-100 | Encoding a successfully decoded string gives the input upper-cased |
| Cards.DecodeLowerCase | pycards/cards.py:94-100 | The lower-case form of any card decodes to the same card |
| Cards.SuitInitial | pycards/cards.py:43-58 | The upper-case initial of every suit's name decodes to that suit |
| Cards.DecodeErrors | pycards/cards.py:94-98 | ValueError when the length is not 2, KeyError for an unknown rank symbol, ValueError for an unknown suit symbol; decoding succeeds exactly when none of these applies |
| Cards.LessIsStrictWeakOrder | pycards/cards.py:70-74 | Ordering by rank is irreflexive, asymmetric and transitive; two cards are unordered exactly when their ranks are equal |
| Cards.SplitJoin | pycards/cards.py:130-135 | For any non-empty delimiter string, splitting parts joined by it gives the parts back when no part shares a character with the delimiter |
| Cards.JoinSplit | pycards/cards.py:130-135 | For any non-empty delimiter string, joining the pieces of a left-to-right split gives the original string back |
| Cards.CardsRoundTrip | pycards/cards.py:127-135 | Parsing the space-separated form of a non-empty collection gives it back; the empty collection's form does not parse (ValueError); an empty delimiter is a ValueError |
| Cards.DecodeEncodeAll | pycards/cards.py:130-135 | Decoding the encoded form of every card of a sequence gives the sequence back |
| Cards.RemoveFirstCounts | pycards/cards.py:151-157 | Removing a present card drops its count by one and changes no other count |
| Cards.RemoveFirstAt | pycards/cards.py:151-157 | The card removed is the first occurrence; the cards before and after it keep their order |
| Cards.RemoveEachCounts | pycards/cards.py:159-163 | When every requested card is present, the pile shrinks by the number requested and the removed cards plus the rest are the old pile |
| Cards.RemoveEachSucceeds | pycards/cards.py:159-163 | Removing a list of cards succeeds exactly when the list is a sub-multiset of the pile |
| Cards.RemoveEachSelf | pycards/cards.py:172-176 | Removing a copy of the whole pile from the pile succeeds and leaves nothing |
| Cards.MostCommonSpec | pycards/cards.py:198-202 | Suits in most-common order are pairwise distinct and their counts never increase |
| Cards.FlushesSpec | pycards/cards.py:192-208 | Exactly one flush per suit whose count lies in the bounds, holding all that suit's cards in pile order, longest first |
| Cards.ContainsFlushIff | pycards/cards.py:178-183 | contains_flush(n) holds exactly when n >= 1 and some suit has exactly n cards |
| Cards.RunsSpec | pycards/cards.py:220-232 | The runs cover every present rank, each run is consecutive and no run touches a rank of a neighbouring run |
| Cards.RunIsMaximalBlock | pycards/cards.py:220-232 | Every run is a maximal block of consecutive present ranks |
| Cards.MaximalBlockIsRun | pycards/cards.py:220-232 | Every maximal block of consecutive present ranks is one of the runs |
| Cards.ProductCount | pycards/cards.py:239-240 | The Cartesian product has as many tuples as the product of the group sizes |
| Cards.ProductMember | pycards/cards.py:239-240 | A tuple is in the product exactly when its k-th card comes from the k-th group |
| Cards.StraightsSound | pycards/cards.py:210-244 | Every straight has a length within the bounds, consists of cards of the pile whose ranks rise by exactly one (no wrap from King to Ace), and spans a maximal block |
| Cards.StraightsComplete | pycards/cards.py:210-244 | Every choice of one card per rank of a maximal block whose length is within the bounds is returned |
| Cards.StraightsCount | pycards/cards.py:234-244 | The number of straights is the sum, over runs within the bounds, of the product of the per-rank card counts; runs outside the bounds contribute nothing |
| Cards.MaximalBlockStraight | pycards/cards.py:234-244 | A maximal block whose length is within the bounds yields at least one straight |
| Cards.ContainsStraightIff | pycards/cards.py:185-190 | An empty pile fails with IndexError (there is no first rank); otherwise contains_straight(n) holds exactly when a maximal block of length n exists |
| CardPiles.DeckOrderSpec | pycards/cards.py:253-269 | The unshuffled deck has 52 pairwise-distinct cards, card (suit, rank) at position 13 * suit index + rank, and every card in it |
| CardPiles.Shuffled | pycards/cards.py:137-141 | A shuffle returns the same cards |
| CardPiles.PlayAllAsWrittenCount | pycards/cards.py:156-176 | play_all as written returns ceil(n/2) cards and leaves floor(n/2) |
| CardPiles.PlayAllAsWrittenExample | pycards/cards.py:172-176 | On a two-card pile, play_all as written returns the first card and leaves the second |
| CardPiles.CardPile.constructor | pycards/cards.py:103-109 | The collection holds exactly the cards given |
| CardPiles.CardPile.Empty | pycards/cards.py:246-251 | The empty collection |
| CardPiles.CardPile.StandardDeck | pycards/cards.py:253-269 | A fresh pile holding one standard deck: in suit-major order when unshuffled, the same cards in some order when shuffled |
| CardPiles.CardPile.AddCard | pycards/cards.py:117-125 | `+=` of a card appends it |
| CardPiles.CardPile.AddCards | pycards/cards.py:117-125 | `+=` of a collection appends its cards in order and leaves the other collection alone |
| CardPiles.CardPile.Shuffle | pycards/cards.py:137-141 | The pile keeps the same cards |
| CardPiles.CardPile.DealCard | pycards/cards.py:143-149 | Returns the first card and leaves exactly the rest in order; IndexError and no change on an empty pile |
| CardPiles.CardPile.PlayCard | pycards/cards.py:151-157 | Returns the card and removes its first occurrence; ValueError and no change when absent |
| CardPiles.CardPile.PlayCards | pycards/cards.py:159-163 | Removes one occurrence per requested card, stopping at the first missing one (ValueError) |
| CardPiles.CardPile.PlayAll | pycards/cards.py:172-176 | As documented: returns every card in order and leaves the pile empty |
| CardPiles.CardPile.PlayRandomCard | pycards/cards.py:165-170 | Returns some card of the pile and removes its first occurrence; IndexError on an empty pile |
| CardPiles.CardPile.GetFlushes | pycards/cards.py:192-208 | The loop over most-common suits returns exactly the specified flushes |
| CardPiles.CardPile.GetStraights | pycards/cards.py:210-244 | The grouping, run-splitting and expansion loops return exactly the specified straights, or IndexError on an empty pile |
| CardPiles.GroupByRank | pycards/cards.py:216-218 | The rank-to-cards map has a key exactly for each present rank, holding that rank's cards in pile order |
| CardPiles.SplitRuns | pycards/cards.py:220-232 | The loop over the rank differences yields exactly the runs |
| CardPiles.RunGroups | pycards/cards.py:239 | Looks up the per-rank card lists of one run |
| CardPiles.ExpandRuns | pycards/cards.py:234-244 | Expanding runs within the bounds as products gives exactly the specified straights |
| CribbageValues.CardValue | pycards/games/cribbage/util.py:8-16 | Rank + 1 below Ten, 10 from Ten to King, so always in 1..10; the older engine's copy at pycards/games/cribbage.py:14-19 is the same code |
| CribbageValues.PeggingTotal | pycards/games/cribbage/util.py:18-19 | The total of n cards lies between n and 10n |
| CribbageValues.PeggingTotalAppend | pycards/games/cribbage/util.py:18-19 | No cards total 0; playing a card adds exactly its value |
| CribbageValues.PeggingTotalAtMostFaceTotal | pycards/games/cribbage/util.py:18-19 | The pegging total never exceeds the sum of rank + 1 |
| CribbageValues.MinValue | pycards/games/cribbage/players.py:29 | The smallest card value of a non-empty hand: some card has it and none is lower |
| Players.Player.constructor | pycards/players.py:11-22 | A new player has the given flag, name and seat, its own empty hand and pegging hand, and score 0 |
| Players.FirstDealer | pycards/players.py:39-48 | The first flagged seat; None exactly when nobody is flagged |
| Players.PlayerGroup.Dealer | pycards/players.py:39-48 | Returns the first flagged player, or None when there is none |
| Players.PlayerGroup.Index | pycards/players.py:78 | `list.index`: the first seat holding the player |
| Players.PlayerGroup.SetDealer | pycards/players.py:57-71 | ValueError and no change for a non-member; otherwise exactly that player is flagged |
| Players.PlayerGroup.PermuteDealer | pycards/players.py:73-80 | The first dealer flag moves one seat on, cyclically; ValueError when there is no dealer |
| Players.PermutedMoves | pycards/players.py:73-80 | With exactly one dealer at seat k, afterwards exactly seat (k + 1) mod n is the dealer |
| Players.PermutedTimesMoves | pycards/players.py:73-80 | m permutations move the only dealer m seats on |
| Players.PermutedFullCircle | tests/test_players.py:49-56 | n permutations of n players restore the original flags |
| Players.PlayerGroup.OrderGenerator | pycards/players.py:82-95 | ValueError when there is no dealer; otherwise a generator fixed at the dealer's seat that has yielded nothing yet |
| Players.OrderGen.Next | pycards/players.py:89-93 | The k-th player yielded is the one k seats after the dealer, cyclically |
| Players.SeatOrder | pycards/players.py:89-93 | The first player yielded sits after the dealer, the n-th is the dealer, the order repeats every n, and the first n cover every seat once |
| CribbagePlayers.CanPegWith | pycards/games/cribbage/players.py:21-34 | False for an empty pegging hand; otherwise true exactly when some card keeps the street total at or below 31; the older engine's copy at pycards/games/cribbage.py:27-41 is the same code |
| CribbagePlayers.FirstOfMinValue | pycards/games/cribbage/players.py:79-83 | The scan stops at the first card of minimum value |
| CribbagePlayers.TakeFirstMinimum | pycards/games/cribbage/players.py:79-83 | Returns the first card of minimum value, with the hand minus that occurrence |
| CribbagePlayers.PeggingStaysUnder31 | pycards/games/cribbage/players.py:21-34 | When the player can peg, the minimum card played keeps the street total at or below 31 |
| CribbagePlayers.PlayRemovesOne | pycards/games/cribbage/players.py:79-83 | The play removes exactly the card played from the hand |
| CribbagePlayers.PlayPeggingCard | pycards/games/cribbage/players.py:69-85 | Plays the first minimum-value card of the pegging hand (ValueError when it is empty), keeps the total at or below 31 when the player could peg, and leaves the hand and the score alone |
| CribbagePlayers.LegacyPlayPeggingCard | pycards/games/cribbage.py:56-70 | The same choice, played out of the hand itself |
| CribbagePlayers.GiveCardsToCrib | pycards/games/cribbage/players.py:56-67 | ValueError unless n is 1 or 2, or when the hand is short; otherwise n cards leave the hand, and they plus the rest are the old hand; the older engine's copy at pycards/games/cribbage.py:43-54 is the same code |
| Scoring.CombinationsCount | pycards/games/cribbage/cribbage.py:96-97 | There are n-choose-k combinations |
| Scoring.CombinationsMember | pycards/games/cribbage/cribbage.py:96-97 | A tuple is a combination exactly when it has k cards taken in order from the hand |
| Scoring.FifteenPointsSpec | pycards/games/cribbage/cribbage.py:95-99 | Two points for every selection of 2 to 5 of the five cards whose values sum to 15 |
| Scoring.PairCountSameRank | pycards/games/cribbage/cribbage.py:101-104 | The pairs among the 2-combinations are the pairs of positions holding equal ranks |
| Scoring.FlushPointsSpec | pycards/games/cribbage/cribbage.py:106-111 | 5 when all four hand cards match the turn-up's suit; 4 when the hand is not the crib and its four cards share a suit the turn-up lacks; otherwise 0 |
| Scoring.FiveCardFlushIff | pycards/games/cribbage/cribbage.py:107 | A five-card flush exists exactly when the four cards share the turn-up's suit |
| Scoring.FourCardFlushIff | pycards/games/cribbage/cribbage.py:110 | A four-card flush in the bare hand exists exactly when its four cards share a suit |
| Scoring.RunPointsSpec | pycards/games/cribbage/cribbage.py:113-115 | Runs score something exactly when the five cards hold a maximal block of 3 to 5 consecutive ranks |
| Scoring.KnobsSpec | pycards/games/cribbage/cribbage.py:117-120 | His nobs counts the Jacks of the turn-up's suit in the bare hand |
| Scoring.KnobsAtMostOne | pycards/games/cribbage/cribbage.py:117-120 | A hand without duplicate cards scores at most one for his nobs |
| Scoring.HandScoreEmptyHand | pycards/games/cribbage.py:142-176 | An empty hand scores 0 whatever the turn-up |
| Scoring.CountFifteens | pycards/games/cribbage/cribbage.py:95-99 | The loops over combination sizes add 2 per combination summing to 15 |
| Scoring.CountPairs | pycards/games/cribbage/cribbage.py:101-104 | The loop adds 2 per equal-rank pair |
| Scoring.CountKnobs | pycards/games/cribbage/cribbage.py:117-120 | The loop adds 1 per Jack of the turn-up's suit |
| Scoring.ScoreHand | pycards/games/cribbage/cribbage.py:88-122 | The hand's score is the five-category sum; the older engine's copy at pycards/games/cribbage.py:142-176 is the same code |
| CribbageRules.FirstAtLeast | pycards/games/cribbage/cribbage.py:60-66 | The first seat whose score reaches the target; None exactly when nobody has |
| CribbageRules.FindWinner | pycards/games/cribbage/cribbage.py:60-66 | Returns the first player in seat order with a score at or above the target, else None; the older engine's copy at pycards/games/cribbage.py:115-121 is the same code |
| CribbageRules.CardsPerPlayer | pycards/games/cribbage/cribbage.py:42-54 | 6 for two players, 5 for three or four, ValueError otherwise; the older engine's copy at pycards/games/cribbage.py:97-109 is the same code |
| CribbageRules.DealFull | pycards/games/cribbage/cribbage.py:83-86 | When the pile is long enough, seat k gets the k-th block of cards from its front and the pile keeps what follows |
| CribbageRules.DealtSeat | pycards/games/cribbage/cribbage.py:83-86 | One seat's new hand is its old hand plus its block of the pile |
| CribbageRules.DealFromFront | pycards/games/cribbage/cribbage.py:83-86 | The nested deal loops produce exactly that deal; IndexError exactly when the pile is short |
| CribbageRules.CollectCribCards | pycards/games/cribbage/cribbage.py:126-130 | Each seat gives its share of 1 or 2 cards (ValueError at the first seat that cannot); no card is lost or made |
| CribbageRules.GiveShares | pycards/games/cribbage/cribbage.py:126-130 | The seat-by-seat loop: seats before the failing one have each given their share |
| CribbageRules.HasCardsCanPeg | pycards/games/cribbage/cribbage.py:155-158 | A player holding cards can always open a street, so every street plays a card |
| CribbageRules.PegTurn | pycards/games/cribbage/cribbage.py:162-163 | A player who can peg plays its first minimum card, the street stays at or below 31, and its other pile and score do not change |
| CribbageRules.PegNext | pycards/games/cribbage/cribbage.py:160-163 | The next player in seat order plays exactly when it can peg; cards move from its pile to the street and none are lost |
| CribbageRules.HasWinner | pycards/games/cribbage/cribbage.py:165-166 | The winner test after each turn holds exactly when some score reaches the target |
| CribbageRules.StreetTurn | pycards/games/cribbage/cribbage.py:158-166 | One step of a street keeps its invariant, and either a card leaves the piles or a seat is skipped |
| CribbageRules.PegStreet | pycards/games/cribbage/cribbage.py:157-166 | A street ends when nobody can play or a winner exists; its total stays at or below 31 and its cards came from the piles |
| CribbageRules.CopyPeggingHands | pycards/games/cribbage/cribbage.py:152-153 | Every pegging hand becomes a copy of the hand |
| CribbageRules.StartPegging | pycards/games/cribbage/cribbage.py:150-153 | Starting the phase records the hands and scores and copies the hands when the newer engine pegs from copies |
| CribbageRules.PegStreets | pycards/games/cribbage/cribbage.py:155-168 | Streets repeat until the piles are empty (false) or a winner exists (true) |
| CribbageRules.PegFrom | pycards/games/cribbage/cribbage.py:155-168 | True exactly when somebody held cards and a score had already reached the target; otherwise every pile ends empty; the cards pegged are exactly the cards of the recorded streets, latest street first, and each street holds at least one card with a total at or below 31; scores never change; cards are only moved |
| CribbageRules.PegPhase | pycards/games/cribbage/cribbage.py:148-168 | ValueError when there is no dealer; otherwise the pegging phase as above, with the cards pegged made up of streets of one to 31 points, leaving the hands alone when playing from the pegging hands; with `fromHand` it is the older engine's loop at pycards/games/cribbage.py:200-217, which pegs out of the hands themselves |
| CribbageGame.DecideDealer | pycards/games/cribbage/cribbage.py:56-58 | ValueError exactly when the group is empty; otherwise some player chosen at random is afterwards the only dealer (the older engine's copy at pycards/games/cribbage.py:111-113 is the same code) |
| CribbageGame.RefilledKeepsCards | pycards/games/cribbage/cribbage.py:68-75 | A refill moves cards between the two piles and loses none; afterwards the deal pile has enough exactly when the two piles together had |
| CribbageGame.Refill | pycards/games/cribbage/cribbage.py:68-75 | No change when the deal pile has enough; otherwise the shuffled discard pile goes under the deal pile and the discard pile is empty |
| CribbageGame.DealFront | pycards/cards.py:143-149 | The first card and the rest; IndexError when empty |
| CribbageGame.PlayRandomFrom | pycards/cards.py:165-170 | Some card of the pile and the pile without it; IndexError when empty |
| CribbageGame.PlayAllFrom | pycards/cards.py:172-176 | All the cards, leaving none |
| CribbageGame.DrawToCrib | pycards/games/cribbage/cribbage.py:132-135 | Refills for one card, then deals it to the crib; IndexError when both piles are empty; no card lost or made |
| CribbageGame.HisHeels | pycards/games/cribbage/cribbage.py:143-144 | 2 points exactly for a Jack, otherwise 0 |
| CribbageGame.Awarded | pycards/games/cribbage/cribbage.py:144 | Points go to one seat and to no other |
| CribbageGame.AwardDealer | pycards/games/cribbage/cribbage.py:144 | Only the dealer's score changes, by the points awarded |
| CribbageGame.ScoreTurnUp | pycards/games/cribbage/cribbage.py:143-146 | The dealer gains 2 exactly for a Jack, nobody else gains, and the winner, if any, is returned |
| CribbageGame.ScoreEachHand | pycards/games/cribbage/cribbage.py:170-173 | Each player gains its own hand's score with the turn-up, not as a crib; the hands are unchanged |
| CribbageGame.DiscardSeats | pycards/games/cribbage/cribbage.py:177-178 | The hands go onto the discard pile in seat order and are left empty |
| CribbageGame.Cribbage.constructor | pycards/games/cribbage/cribbage.py:23-33 | For a non-empty group: a shuffled standard deck to deal from, empty discard pile and crib, no turn-up, and exactly one dealer |
| CribbageGame.Cribbage.Create | pycards/games/cribbage/cribbage.py:23-33 | ValueError exactly when the group is empty (from `_decide_dealer`); otherwise a new game in the state the constructor describes |
| CribbageGame.Cribbage.FixDealPile | pycards/games/cribbage/cribbage.py:68-75 | The refill on the game's piles; crib and turn-up untouched |
| CribbageGame.Cribbage.DealCardsToPlayers | pycards/games/cribbage/cribbage.py:77-86 | ValueError for a bad player count; otherwise refill, then each seat in order gets its block; IndexError only when the two piles together hold less than a deal; no card lost |
| CribbageGame.Cribbage.DealRound | pycards/games/cribbage/cribbage.py:79-86 | The refill-then-deal step for a known number of cards per player |
| CribbageGame.Cribbage.DealFromPile | pycards/games/cribbage/cribbage.py:83-86 | The deal from the game's deal pile, conserving hands plus pile |
| CribbageGame.Cribbage.DealtFresh | pycards/games/cribbage/cribbage.py:77-86 | After a deal from a full deck with empty hands, every player can give its crib share and the two piles hold 52 minus the deal |
| CribbageGame.Cribbage.ReceiveCribCards | pycards/games/cribbage/cribbage.py:124-135 | Succeeds exactly when every hand can give its share (and, with three players, a card is left to deal); the crib grows by 2 per player of two, 1 per player of three or four, plus the dealt card with three; no card lost |
| CribbageGame.Cribbage.GiveCribShares | pycards/games/cribbage/cribbage.py:126-130 | The players' shares go into the crib; no card lost |
| CribbageGame.Cribbage.DealToCrib | pycards/games/cribbage/cribbage.py:132-135 | The three-player crib card: refill for one, deal one card to the crib; IndexError when both piles are empty |
| CribbageGame.Cribbage.TurnUpCard | pycards/games/cribbage/cribbage.py:139-141 | The drawing half of `_choose_turn_up`, leaving hands, scores and crib alone |
| CribbageGame.Cribbage.DrawTurnUp | pycards/games/cribbage/cribbage.py:139-141 | Refill for one card; a random card leaves the deal pile, becomes the turn-up and goes onto the discard pile; IndexError when both piles are empty |
| CribbageGame.Cribbage.ScoreTurnedUp | pycards/games/cribbage/cribbage.py:143-146 | The scoring half, leaving hands and piles alone |
| CribbageGame.Cribbage.ChooseTurnUp | pycards/games/cribbage/cribbage.py:137-146 | One card moves from the deal pile to the discard pile and is recorded; the dealer gains 2 exactly for a Jack and no other score changes; the winner, if any, is returned |
| CribbageGame.Cribbage.PlayPeggingPhase | pycards/games/cribbage/cribbage.py:148-168 | True exactly when somebody held cards and a winner already existed; otherwise every pegging hand ends empty; the cards taken from the pegging hands are exactly those of the streets, each non-empty and at or below 31; hands and scores unchanged |
| CribbageGame.Cribbage.ScoreHands | pycards/games/cribbage/cribbage.py:170-173 | Each player gains its hand's score with the turn-up; hands unchanged |
| CribbageGame.Cribbage.DiscardHands | pycards/games/cribbage/cribbage.py:177-178 | The hands, in seat order, go onto the discard pile and are emptied |
| CribbageGame.Cribbage.DiscardCrib | pycards/games/cribbage/cribbage.py:180 | The crib goes onto the discard pile and is emptied |
| CribbageGame.Cribbage.DiscardHandsAndCrib | pycards/games/cribbage/cribbage.py:175-180 | The discard pile gains the hands in seat order and then the crib; hands and crib end empty; scores unchanged |
| CribbageGame.Cribbage.ClearedFree | pycards/games/cribbage/cribbage.py:175-180 | Once hands and crib are empty, the two piles hold all 52 cards |
| CribbageGame.Cribbage.FindWinner | pycards/games/cribbage/cribbage.py:60-66 | The winner test on the game's players |
| CribbageGame.Cribbage.DealTurn | pycards/games/cribbage/cribbage.py:195-198 | Deal and collect the crib: ValueError for a bad player count; from a cleared full deck it always succeeds and leaves a card for the turn-up |
| CribbageGame.Cribbage.TurnUpPhase | pycards/games/cribbage/cribbage.py:200-211 | The turn-up phase: IndexError only when no card is left; scores only grow |
| CribbageGame.Cribbage.PeggingPhase | pycards/games/cribbage/cribbage.py:200-211 | The pegging phase followed by the winner test; scores unchanged |
| CribbageGame.Cribbage.HandsPhase | pycards/games/cribbage/cribbage.py:200-211 | Hand scoring followed by the winner test; scores only grow |
| CribbageGame.Cribbage.PegAndScoreHands | pycards/games/cribbage/cribbage.py:200-211 | Pegging, then, unless somebody has won, hand scoring: cards conserved, scores only grow, the winner if any is returned |
| CribbageGame.Cribbage.ScoreTurn | pycards/games/cribbage/cribbage.py:200-211 | The three scoring phases in order, stopping at the first winner; cards conserved, scores only grow |
| CribbageGame.Cribbage.PlayTurn | pycards/games/cribbage/cribbage.py:187-217 | One deal: cards conserved, scores only grow, a returned player is the winner, no winner means hands and crib end cleared, and from a cleared full deck with a valid player count the turn cannot fail |
| CribbageGame.Cribbage.Play | pycards/games/cribbage/cribbage.py:182-219 | Returns the first player to reach the target after a scoring phase; TimeoutError after 1000 deals without one; ValueError for a bad player count; from a conserved, cleared deck with a valid player count, only a win or the timeout can end the game |
| LegacyCribbage.RefillAsWritten | pycards/games/cribbage.py:123-130 | The older refill: when the deal pile is short, the discard pile is shuffled in place and its cards appended to the deal pile, while the discard pile keeps them |
| LegacyCribbage.RefillDuplicates | pycards/games/cribbage.py:128-130 | With an empty deal pile and one discarded card, that card ends up on both piles |
| LegacyCribbage.RefillLengths | pycards/games/cribbage.py:128-130 | After a refill the deal pile has enough exactly when the two piles together had |
| LegacyCribbage.EmptyHandsScoreNothing | pycards/games/cribbage.py:219-222 | Scoring emptied hands leaves every score as it was |
| LegacyCribbage.Cribbage.constructor | pycards/games/cribbage.py:78-88 | For a non-empty group: a shuffled standard deck, empty discard pile and crib, no turn-up, exactly one dealer |
| LegacyCribbage.Cribbage.Create | pycards/games/cribbage.py:78-88 | ValueError exactly when the group is empty (from `_decide_dealer`, pycards/games/cribbage.py:111-113); otherwise a new game in the state the constructor describes |
| LegacyCribbage.Cribbage.FixDealPile | pycards/games/cribbage.py:123-130 | The older refill on the game's piles |
| LegacyCribbage.Cribbage.DealCardsToPlayers | pycards/games/cribbage.py:132-140 | ValueError for a bad player count; otherwise the older refill, then each seat gets its block from the front; IndexError exactly when the refilled pile is short |
| LegacyCribbage.Cribbage.GiveCribShares | pycards/games/cribbage.py:180-184 | The players' shares go into the crib; hands plus crib unchanged |
| LegacyCribbage.Cribbage.DealToCrib | pycards/games/cribbage.py:186-189 | The older refill for one card, then the front card goes to the crib; IndexError when none is left |
| LegacyCribbage.Cribbage.ReceiveCribCards | pycards/games/cribbage.py:178-189 | Succeeds exactly when every hand can give its share (and, with three players, a card is left); the crib grows as in the newer engine |
| LegacyCribbage.Cribbage.DrawTurnUp | pycards/games/cribbage.py:192-193 | The older refill, then a random card leaves the deal pile and becomes the turn-up; it is not discarded |
| LegacyCribbage.Cribbage.ChooseTurnUp | pycards/games/cribbage.py:191-198 | The dealer gains 2 exactly for a Jack and no other score changes; the winner, if any, is returned |
| LegacyCribbage.Cribbage.PlayPeggingPhase | pycards/games/cribbage.py:200-217 | True exactly when somebody held cards and a winner already existed; otherwise every hand ends empty; the cards taken from the hands are exactly those of the streets, each non-empty and at or below 31; scores unchanged |
| LegacyCribbage.Cribbage.ScoreHands | pycards/games/cribbage.py:219-222 | Each player gains its hand's score with the turn-up |
| LegacyCribbage.Cribbage.DiscardHandsAndCrib | pycards/games/cribbage.py:224-230 | With `play_all` draining as documented: the discard pile gains the hands, the crib and then the turn-up, and hands and crib end empty |
| LegacyCribbage.Cribbage.DealTurn | pycards/games/cribbage.py:239-241 | Deal and collect the crib; ValueError for a bad player count |
| LegacyCribbage.Cribbage.PeggingPhase | pycards/games/cribbage.py:243-252 | Pegging then the winner test; without an earlier winner every hand ends empty |
| LegacyCribbage.Cribbage.HandsPhase | pycards/games/cribbage.py:243-252 | Hand scoring of the emptied hands changes no score |
| LegacyCribbage.Cribbage.PegAndScoreHands | pycards/games/cribbage.py:243-252 | Pegging, then, unless somebody has won, hand scoring: no score and no dealer flag changes, and with no winner every hand ends empty |
| LegacyCribbage.Cribbage.ScoreTurn | pycards/games/cribbage.py:243-252 | The three scoring phases: the only score change of a deal is his heels |
| LegacyCribbage.Cribbage.ScoreAndDiscard | pycards/games/cribbage.py:243-254 | The scoring phases and, with no winner, the discard: scores change by his heels alone, and a turn without a winner ends with hands and crib empty (with the documented `play_all`) |
| LegacyCribbage.Cribbage.PlayTurn | pycards/games/cribbage.py:237-254 | One deal: the returned player is the winner; the scores change only by his heels |
| LegacyCribbage.Cribbage.Play | pycards/games/cribbage.py:232-254 | Scores only grow and only by even amounts; a returned player is the winner; running out of turns means nobody has won; ValueError for a bad player count |
| LegacyDeck.UpperString | pycribbage/cards.py:39-41 | Upper-cases every character and keeps the length |
| LegacyDeck.UpperFace | pycribbage/cards.py:5-19 | The upper-cased face names are the capitals ACE to KING, none containing a space |
| LegacyDeck.ReprNamesCard | pycribbage/cards.py:39-41 | The Ace of Spades prints as "ACE OF SPADES"; two cards print alike exactly when they are equal |
| LegacyDeck.InitCards | pycribbage/cards.py:53-61 | The 52 cards in suit-major order, one per suit and value |
| LegacyDeck.Deck.constructor | pycribbage/cards.py:46-51 | Unshuffled: exactly the cards of `init_cards`; shuffled: the same cards in some order |

## Left out

- Randomness: `np.random.shuffle`, `random.choice` and `np.random.choice` become nondeterministic choices. A shuffle is known only to keep the same cards; no distribution is modelled.
- Console input and output: `CommandLinePlayer`, `scripts/play_command_line_cribbage.py` and the `LOGGER` calls are not part of this model.
- `pycards/util.py` (`get_repo_root`) and the CSV fixture of the engine tests are not part of this model; both touch the filesystem.
- `Card.__hash__` is a hashing detail; cards compare by datatype equality.
- numpy's `np.sort` and `np.diff` in `get_straights` become sequence operations over the sorted distinct ranks.
- The `TypeError` branch of `Cards.__iadd__` cannot be reached here: `AddCard` and `AddCards` are typed.
- `Cards.standard_deck` wraps a `Cards` inside another `Cards`. The model keeps the plain card list.
- `FaceValue` and `sum_cribbage_card_values` are not part of this model. `FaceValue` is read as the rank, with TEN = 9 and JACK = 10. `sum_cribbage_card_values` is read as `compute_current_pegging_score` (`PeggingTotal`).
- Players.PlayerGroup.SetDealer: membership and the matching player are decided by object identity, not by the dataclass field equality Python uses.
- Players.PlayerGroup.Index: the seat is found by object identity, not by the dataclass field equality `list.index` uses.
- CardPiles.CardPile.AddCards: requires a different collection; adding a collection to itself never finishes in Python, and no caller does it.
- Players.Player.constructor: each player gets its own empty hand, not the single mutable default list all players share.
- Cards.SplitJoin: proved for parts that share no character with the delimiter, which covers the space-separated card text; other joined parts may be cut differently by `str.split`. A `None` delimiter (split on runs of whitespace) is not modelled.
- CribbageGame.Cribbage.constructor: a Dafny constructor cannot raise, so it requires a non-empty group; `Create` carries the empty group's ValueError.
- LegacyCribbage.Cribbage.constructor: requires a non-empty group for the same reason; `Create` carries the ValueError.
- CribbageGame.Refill: moves the whole discard pile, as `play_all` is documented to; the code as written leaves every other card in the discard pile (Findings, first row).
- CribbageGame.PlayAllFrom: the documented drain, not the as-written `play_all` that skips every other card.
- CribbageGame.Cribbage.DiscardHands: empties every hand; as written, each hand keeps every other card into the next deal.
- CribbageGame.Cribbage.DiscardCrib: empties the crib; as written, it keeps every other card.
- CribbageGame.Cribbage.DiscardHandsAndCrib: ends with empty hands and crib (`Cleared`), which the as-written `play_all` does not reach.
- Players.OrderGen.Next: the infinite generator is an object counting how many players it has yielded.
- CribbageGame.Cribbage.ChooseTurnUp: requires a dealer (`Valid()`). Without one the source fails on `None.score` for a Jack; the constructor always sets a dealer and nothing removes it.
- CribbageGame.Cribbage.ScoreHands: requires a turn-up card. The source would fail adding `None` to a hand; `play` always turns one up first.
- LegacyCribbage.Cribbage.ScoreHands: requires a turn-up card, for the same reason.
- LegacyCribbage.Cribbage.DiscardHandsAndCrib: requires a turn-up card, for the same reason. It also drains the crib as `play_all` is documented to; as written (pycards/games/cribbage.py:229) the crib keeps every other card, so later cribs grow from one deal to the next (Findings, first row).
- LegacyCribbage.Cribbage.ScoreAndDiscard: its `Cleared()` after a turn without a winner rests on the same documented drain; as written the crib keeps every other card.
- LegacyCribbage.Cribbage.Play: the older `play` loops until someone wins. The model runs at most `fuel` deals and returns `None` when it runs out, so a game that never ends is not captured.
- Neither engine awards pegging points, scores the crib, passes `is_crib=True` or rotates the dealer inside `play`. The model follows the code and does not add them.
- `_permute_dealer` is modelled (`PermuteDealer`) but never called by either game.

## Findings

| source | as written | input that shows it | evidently intended | confidence | as-written member | corrected member |
|---|---|---|---|---|---|---|
| pycards/cards.py:172-176 | `play_all` passes the pile's own list to `play_cards`, which iterates it while `play_card` removes from it, so every other card is skipped. The newer engine's refill and discard (pycards/games/cribbage/cribbage.py:75, 178, 180) and the older engine's crib discard (pycards/games/cribbage.py:229) rely on it. | A pile holding the Ace and Two of Spades: `play_all` returns only the Ace and leaves the Two | Return every card and leave the pile empty, as its doc comment says | high, not executed | CardPiles.PlayAllAsWrittenExample | CardPiles.CardPile.PlayAll |
| pycards/games/cribbage.py:128-130 | The older `_fix_deal_pile` appends the discard pile to the deal pile without emptying it, so the cards are on both piles | An empty deal pile and one discarded card, refilled for one card: the card is then the whole deal pile and the whole discard pile | Move the discard pile under the deal pile, as the newer engine does | high, not executed | LegacyCribbage.RefillDuplicates | CribbageGame.RefilledKeepsCards |
| pycards/games/cribbage.py:204-222 | The older pegging phase plays the cards out of the hands, so `_score_hands` scores empty hands and his heels is the only score of a deal | Any deal without a winner during pegging: afterwards every hand is empty and scoring changes no score | Peg from copies of the hands and score the hands afterwards, as the newer engine does | high, not executed | LegacyCribbage.Cribbage.ScoreTurn | CribbageGame.Cribbage.PlayPeggingPhase |
