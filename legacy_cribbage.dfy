/**
 * The older Cribbage engine, class Cribbage of pycards/games/cribbage.py.
 * It keeps the same piles as the newer engine and shares its rules for
 * dealing, the crib, the winner and hand scores, but differs in three
 * places: refilling the deal pile leaves the discard pile as it was, so
 * its cards are dealt while they still lie on it; pegging plays from the
 * hands themselves, so they are empty by the time _score_hands scores
 * them; and the turn-up card reaches the discard pile only when the deal
 * is cleared away. `play` loops until somebody wins, with no cap on the
 * number of deals; the model runs it for at most `fuel` deals.
 */
module LegacyCribbage {
  import opened Wrappers
  import opened Cards
  import opened CardPiles
  import opened Players
  import opened CribbageValues
  import opened Scoring
  import opened CribbageRules
  import CribbageGame

  /**
   * What the older _fix_deal_pile does when `need` cards are required:
   * nothing when the deal pile has enough; otherwise the discard pile is
   * shuffled where it lies and its cards are appended to the deal pile,
   * while the discard pile keeps them too.
   */
  ghost predicate RefilledAsWritten(deal: seq<Card>, discard: seq<Card>, need: int, deal': seq<Card>, discard': seq<Card>) {
    if need <= |deal| then deal' == deal && discard' == discard
    else multiset(discard') == multiset(discard) && deal' == deal + discard'
  }

  /** The older _fix_deal_pile on the two piles held as sequences. */
  method RefillAsWritten(deal: seq<Card>, discard: seq<Card>, need: int) returns (deal': seq<Card>, discard': seq<Card>)
    ensures RefilledAsWritten(deal, discard, need, deal', discard')
  {
    deal', discard' := deal, discard;
    if need > |deal| {
      var from := new CardPile(discard);
      from.Shuffle();
      var to := new CardPile(deal);
      to.AddCards(from);
      deal', discard' := to.cards, from.cards;
    }
  }

  /**
   * The refill copies instead of moving: with an empty deal pile and one
   * discarded card, the card is afterwards both the whole deal pile and
   * the whole discard pile, so it can be dealt while still discarded.
   */
  lemma RefillDuplicates(c: Card, deal': seq<Card>, discard': seq<Card>)
    requires RefilledAsWritten([], [c], 1, deal', discard')
    ensures deal' == [c] && discard' == [c]
    ensures multiset(deal') + multiset(discard') == multiset{c, c}
  {
    assert |discard'| == |multiset(discard')| == 1;
    assert discard'[0] in multiset(discard');
  }

  /** A refill leaves at least as many cards on the deal pile as the two piles held before. */
  lemma RefillLengths(deal: seq<Card>, discard: seq<Card>, need: int, deal': seq<Card>, discard': seq<Card>)
    requires RefilledAsWritten(deal, discard, need, deal', discard')
    ensures need > |deal| ==> |deal'| == |deal| + |discard| && |discard'| == |discard|
    ensures need <= |deal'| <==> need <= |deal| || need <= |deal| + |discard|
  {
    if need > |deal| {
      assert |discard'| == |multiset(discard')| == |multiset(discard)| == |discard|;
    }
  }

  /** Hands emptied by pegging score nothing: _score_hands then leaves every score as it was. */
  lemma EmptyHandsScoreNothing(scores: seq<int>, hands: seq<seq<Card>>, c: Card)
    requires |hands| == |scores| && forall i :: 0 <= i < |hands| ==> hands[i] == []
    ensures CribbageGame.HandsScored(scores, hands, c) == scores
  {
    HandScoreEmptyHand(c, false);
  }

  /** Cards `g` given from the hands (`u0` becoming `u'`) to the crib `c0`: hands and crib together are unchanged. */
  lemma IntoCrib(u': multiset<Card>, g: multiset<Card>, u0: multiset<Card>, c0: multiset<Card>)
    requires u' + g == u0
    ensures u' + (c0 + g) == u0 + c0
  {
    forall e ensures (u' + (c0 + g))[e] == (u0 + c0)[e] {
      assert (u' + g)[e] == u0[e];
    }
  }

  /** Every score of `after` differs from its counterpart in `before` by an even number of points. */
  ghost predicate EvenGain(before: seq<int>, after: seq<int>) {
    |after| == |before| && forall i :: 0 <= i < |before| ==> (after[i] - before[i]) % 2 == 0
  }

  lemma EvenGainTrans(a: seq<int>, b: seq<int>, c: seq<int>)
    requires EvenGain(a, b) && EvenGain(b, c)
    ensures EvenGain(a, c)
  {
    forall i | 0 <= i < |a|
      ensures (c[i] - a[i]) % 2 == 0
    {
      assert c[i] - a[i] == (c[i] - b[i]) + (b[i] - a[i]);
    }
  }

  /** His heels is the only award of the older engine, and it is two points or none. */
  lemma HeelsEven(scores: seq<int>, d: nat, c: Card)
    ensures EvenGain(scores, CribbageGame.Awarded(scores, d, CribbageGame.HisHeels(c)))
  {
  }

  class Cribbage {
    const group: PlayerGroup
    const winningPoints: int
    var dealPile: seq<Card>
    var discardPile: seq<Card>
    var crib: seq<Card>
    var turnUpCard: Option<Card>

    /** Each player is seated once, and somebody holds the dealer flag. */
    ghost predicate Valid()
      reads this, group, group.players
    {
      group.Valid() && FirstDealer(group.Flags()).Some?
    }

    /** Between deals: no player holds cards and the crib is empty. */
    ghost predicate Cleared()
      reads this, group.players
    {
      crib == [] && forall i :: 0 <= i < |group.players| ==> group.players[i].hand == []
    }

    /**
     * Cribbage(players, winning_points): a shuffled standard deck to deal
     * from, empty discard pile and crib, no turn-up card yet, and a dealer
     * chosen at random among the players (_decide_dealer). A non-empty
     * group is required here; Create models the empty group's ValueError.
     */
    constructor (g: PlayerGroup, w: int)
      requires g.Valid() && |g.players| >= 1
      modifies g.players`isDealer
      ensures group == g && winningPoints == w
      ensures multiset(dealPile) == multiset(DeckOrder()) && discardPile == [] && crib == [] && turnUpCard == None
      ensures exists k :: OnlyDealer(g.Flags(), k)
    {
      group := g;
      winningPoints := w;
      var deck := CardPile.StandardDeck(true);
      dealPile := deck.cards;
      discardPile := [];
      crib := [];
      turnUpCard := None;
      new;
      ghost var cards := multiset(dealPile);
      var k := CribbageGame.DecideDealer(g);
      assert OnlyDealer(g.Flags(), k.value);
      assert multiset(dealPile) == cards;
    }

    /**
     * Cribbage(players, winning_points) with its error path: an empty group
     * makes _decide_dealer raise ValueError, so no game is made.
     */
    static method Create(g: PlayerGroup, w: int) returns (r: Result<Cribbage>)
      requires g.Valid()
      modifies g.players`isDealer
      ensures r.Err? <==> |g.players| == 0
      ensures r.Err? ==> r.error == ValueError
      ensures r.Ok? ==> fresh(r.value) && r.value.group == g && r.value.winningPoints == w
      ensures r.Ok? ==> multiset(r.value.dealPile) == multiset(DeckOrder()) && r.value.discardPile == []
      ensures r.Ok? ==> r.value.crib == [] && r.value.turnUpCard == None
      ensures r.Ok? ==> exists k :: OnlyDealer(g.Flags(), k)
    {
      if |g.players| == 0 {
        return Err(ValueError);
      }
      var game := new Cribbage(g, w);
      r := Ok(game);
    }

    /**
     * _fix_deal_pile as written: when fewer than `need` cards are left to
     * deal, the discard pile is shuffled and appended to the deal pile
     * without being emptied.
     */
    method FixDealPile(need: int)
      modifies this`dealPile, this`discardPile
      ensures RefilledAsWritten(old(dealPile), old(discardPile), need, dealPile, discardPile)
    {
      dealPile, discardPile := RefillAsWritten(dealPile, discardPile, need);
    }

    /**
     * _deal_cards_to_players: ValueError for a bad number of players.
     * Otherwise the deal pile is refilled if it is short of a whole deal,
     * and seat k, in seat order, gets the k-th block of cards_per_player
     * cards from its front; IndexError when the two piles together hold
     * less than a deal.
     */
    method DealCardsToPlayers() returns (o: Outcome, ghost pile: seq<Card>)
      requires group.Valid()
      modifies this`dealPile, this`discardPile, group.players`hand
      ensures CardsPerPlayer(|group.players|).Err? ==>
        o == Fail(ValueError) && dealPile == old(dealPile) && discardPile == old(discardPile)
        && HandsOf(group.players) == old(HandsOf(group.players))
      ensures CardsPerPlayer(|group.players|).Ok? ==>
        var n, cpp := |group.players|, CardsPerPlayer(|group.players|).value;
        && RefilledAsWritten(old(dealPile), old(discardPile), n * cpp, pile, discardPile)
        && (o == Pass <==> n * cpp <= |old(dealPile)| + |old(discardPile)|)
        && (o.Fail? ==> o.error == IndexError)
        && HandsOf(group.players) == DealtHands(old(HandsOf(group.players)), pile, cpp, n)
        && dealPile == DealtRest(pile, cpp, n)
    {
      var ps := group.players;
      var cpp := CardsPerPlayer(|ps|);
      pile := dealPile;
      if cpp.Err? {
        return Fail(ValueError), pile;
      }
      FixDealPile(|ps| * cpp.value);
      pile := dealPile;
      RefillLengths(old(dealPile), old(discardPile), |ps| * cpp.value, pile, discardPile);
      o, dealPile := DealFromFront(ps, dealPile, cpp.value);
    }

    /**
     * _receive_crib_cards_from_players: each player in seat order gives
     * two cards with two players and one with three or four; with three
     * players one more card is dealt into the crib, after refilling the
     * deal pile if it is empty. A player who cannot give their share
     * raises ValueError, an empty pair of piles IndexError.
     */
    method ReceiveCribCards() returns (o: Outcome)
      requires group.Valid()
      modifies this`dealPile, this`discardPile, this`crib, group.players`hand
      ensures o == Pass <==>
        && CribbageGame.CanGive(old(HandsOf(group.players)), CribShare(|group.players|))
        && (|group.players| == 3 ==> |old(dealPile)| + |old(discardPile)| >= 1)
      ensures o.Fail? ==> o.error == ValueError || o.error == IndexError
      ensures o == Pass ==>
        && |crib| == |old(crib)| + |group.players| * CribShare(|group.players|) + (if |group.players| == 3 then 1 else 0)
        && CribbageGame.Given(old(HandsOf(group.players)), HandsOf(group.players), CribShare(|group.players|))
      ensures |group.players| != 3 ==>
        && dealPile == old(dealPile) && discardPile == old(discardPile)
        && Union(HandsOf(group.players)) + multiset(crib) == old(Union(HandsOf(group.players)) + multiset(crib))
    {
      var n := |group.players|;
      o := GiveCribShares();
      if o.Fail? || n != 3 {
        return;
      }
      ghost var pile;
      o, pile := DealToCrib();
      if o == Pass {
        RefillLengths(old(dealPile), old(discardPile), 1, pile, discardPile);
      }
    }

    /**
     * The giving half of _receive_crib_cards_from_players: each player in
     * seat order gives CribShare cards to the crib; ValueError from the
     * first player who holds too few. The cards only move.
     */
    method GiveCribShares() returns (o: Outcome)
      requires group.Valid()
      modifies this`crib, group.players`hand
      ensures o == Pass <==> CribbageGame.CanGive(old(HandsOf(group.players)), CribShare(|group.players|))
      ensures o.Fail? ==> o.error == ValueError
      ensures o == Pass ==>
        && |crib| == |old(crib)| + |group.players| * CribShare(|group.players|)
        && CribbageGame.Given(old(HandsOf(group.players)), HandsOf(group.players), CribShare(|group.players|))
      ensures Union(HandsOf(group.players)) + multiset(crib) == old(Union(HandsOf(group.players)) + multiset(crib))
    {
      var ps := group.players;
      var given;
      ghost var hands := HandsOf(ps);
      o, given := CollectCribCards(ps, CribShare(|ps|));
      crib := crib + given;
      IntoCrib(Union(HandsOf(ps)), multiset(given), Union(hands), multiset(old(crib)));
    }

    /**
     * The three-player step of _receive_crib_cards_from_players: the deal
     * pile is refilled as written if it is empty, and its front card goes
     * into the crib; IndexError when it is still empty.
     */
    method DealToCrib() returns (o: Outcome, ghost pile: seq<Card>)
      modifies this`dealPile, this`discardPile, this`crib
      ensures RefilledAsWritten(old(dealPile), old(discardPile), 1, pile, discardPile)
      ensures o == Pass <==> pile != []
      ensures o.Fail? ==> o.error == IndexError && crib == old(crib) && dealPile == pile
      ensures o == Pass ==> crib == old(crib) + [pile[0]] && dealPile == pile[1..]
    {
      FixDealPile(1);
      pile := dealPile;
      var c, rest := CribbageGame.DealFront(dealPile);
      if c.Err? {
        return Fail(IndexError), pile;
      }
      dealPile := rest;
      crib := crib + [c.value];
      o := Pass;
    }

    /**
     * _choose_turn_up as written: refills the deal pile as written if it
     * is empty, draws a card from it at random (IndexError when there is
     * none) and records it, leaving it off the discard pile. The dealer
     * scores 2 exactly when it is a Jack; nobody else's score changes. The
     * winner, if any, is returned.
     */
    method ChooseTurnUp() returns (r: Result<Option<Player>>, ghost pile: seq<Card>)
      requires Valid()
      modifies this`dealPile, this`discardPile, this`turnUpCard, group.players`score
      ensures RefilledAsWritten(old(dealPile), old(discardPile), 1, pile, discardPile)
      ensures r.Err? <==> pile == []
      ensures r.Err? ==>
        r.error == IndexError && dealPile == pile && turnUpCard == old(turnUpCard)
        && Scores(group.players) == old(Scores(group.players))
      ensures r.Ok? ==> turnUpCard.Some? && turnUpCard.value in pile && dealPile == RemoveFirst(pile, turnUpCard.value)
      ensures r.Ok? && turnUpCard.Some? ==>
        Scores(group.players) == CribbageGame.Awarded(old(Scores(group.players)), FirstDealer(group.Flags()).value,
                                                      CribbageGame.HisHeels(turnUpCard.value))
      ensures r.Ok? ==> IsWinner(group.players, winningPoints, r.value)
    {
      var drawn;
      drawn, pile := DrawTurnUp();
      if drawn.Err? {
        return Err(IndexError), pile;
      }
      var winner := CribbageGame.ScoreTurnUp(group, winningPoints, drawn.value);
      r := Ok(winner);
    }

    /** The drawing half of _choose_turn_up: a random card of the refilled deal pile becomes the turn-up. */
    method DrawTurnUp() returns (r: Result<Card>, ghost pile: seq<Card>)
      modifies this`dealPile, this`discardPile, this`turnUpCard
      ensures RefilledAsWritten(old(dealPile), old(discardPile), 1, pile, discardPile)
      ensures r.Err? <==> pile == []
      ensures r.Err? ==> r.error == IndexError && dealPile == pile && turnUpCard == old(turnUpCard)
      ensures r.Ok? ==> r.value in pile && dealPile == RemoveFirst(pile, r.value) && turnUpCard == Some(r.value)
    {
      FixDealPile(1);
      pile := dealPile;
      var rest;
      r, rest := CribbageGame.PlayRandomFrom(dealPile);
      if r.Err? {
        return;
      }
      dealPile := rest;
      turnUpCard := Some(r.value);
    }

    /**
     * _play_pegging_phase as written: pegs straight from the hands. It is
     * true exactly when somebody has already won and somebody holds a
     * card; otherwise the hands are played out (no street over 31) and it
     * is false, with every hand empty. Scores do not change.
     */
    method PlayPeggingPhase() returns (r: Result<bool>, ghost streets: seq<seq<Card>>, ghost played: seq<Card>)
      requires Valid()
      modifies group.players`hand, group.players`peggingHand
      ensures r.Ok? && (r.value <==> old(AnyCards(group.players, true)) && FirstAtLeast(old(Scores(group.players)), winningPoints).Some?)
      ensures Union(HandsOf(group.players)) + multiset(played) == Union(old(HandsOf(group.players)))
      ensures !r.value ==> forall i :: 0 <= i < |group.players| ==> group.players[i].hand == []
      ensures played == StreetCards(streets)
      ensures forall i :: 0 <= i < |streets| ==> streets[i] != [] && PeggingTotal(streets[i]) <= 31
      ensures Scores(group.players) == old(Scores(group.players))
    {
      ghost var piles;
      r, piles, streets, played := PegPhase(group, winningPoints, true);
      assert PegPilesOf(group.players, true) == HandsOf(group.players);
    }

    /** _score_hands: every player's score grows by the score of their hand with the turn-up. */
    method ScoreHands()
      requires group.Valid() && turnUpCard.Some?
      modifies group.players`score
      ensures Scores(group.players) == CribbageGame.HandsScored(old(Scores(group.players)), HandsOf(group.players), turnUpCard.value)
      ensures HandsOf(group.players) == old(HandsOf(group.players))
    {
      CribbageGame.ScoreEachHand(group.players, turnUpCard.value);
    }

    /**
     * _discard_hands_and_crib with `play_all` draining each pile as it is
     * documented to: every hand in seat order, then the crib, then the
     * turn-up card go onto the discard pile, leaving the hands and the crib
     * empty.
     */
    method DiscardHandsAndCrib()
      requires group.Valid() && turnUpCard.Some?
      modifies this`discardPile, this`crib, group.players`hand
      ensures discardPile == old(discardPile) + Flatten(old(HandsOf(group.players)), |group.players|) + old(crib) + [turnUpCard.value]
      ensures Cleared()
      ensures Scores(group.players) == old(Scores(group.players)) && group.Flags() == old(group.Flags())
    {
      discardPile := CribbageGame.DiscardSeats(group.players, discardPile);
      var cards, rest := CribbageGame.PlayAllFrom(crib);
      discardPile := discardPile + cards;
      crib := rest;
      discardPile := discardPile + [turnUpCard.value];
    }

    /** The dealing half of a turn of play: _deal_cards_to_players, then _receive_crib_cards_from_players. */
    method DealTurn() returns (o: Outcome)
      requires group.Valid()
      modifies this`dealPile, this`discardPile, this`crib, group.players`hand
      ensures CardsPerPlayer(|group.players|).Err? ==> o == Fail(ValueError)
      ensures o.Fail? ==> o.error == ValueError || o.error == IndexError
    {
      ghost var pile;
      o, pile := DealCardsToPlayers();
      if o.Fail? {
        return;
      }
      o := ReceiveCribCards();
    }

    /**
     * The scoring half of a turn of play: _choose_turn_up,
     * _play_pegging_phase and _score_hands, each followed by a look for a
     * winner. Since pegging has emptied the hands by the time they are
     * scored, the only points of a turn are his heels.
     */
    method ScoreTurn() returns (r: Result<Option<Player>>)
      requires Valid()
      modifies this`dealPile, this`discardPile, this`turnUpCard
      modifies group.players`hand, group.players`peggingHand, group.players`score
      ensures r.Err? ==> r.error == IndexError && Scores(group.players) == old(Scores(group.players))
      ensures r.Ok? ==> IsWinner(group.players, winningPoints, r.value) && turnUpCard.Some?
      ensures r.Ok? && turnUpCard.Some? ==>
        Scores(group.players) == CribbageGame.Awarded(old(Scores(group.players)), FirstDealer(group.Flags()).value,
                                                      CribbageGame.HisHeels(turnUpCard.value))
      ensures r == Ok(None) ==> forall i :: 0 <= i < |group.players| ==> group.players[i].hand == []
    {
      ghost var pile;
      r, pile := ChooseTurnUp();
      if r.Err? || r.value.Some? {
        return;
      }
      var winner := PegAndScoreHands();
      r := Ok(winner);
    }

    /** The pegging and hand-scoring phases: with the hands pegged away, no score changes. */
    method PegAndScoreHands() returns (winner: Option<Player>)
      requires Valid() && turnUpCard.Some?
      modifies group.players`hand, group.players`peggingHand, group.players`score
      ensures Scores(group.players) == old(Scores(group.players)) && group.Flags() == old(group.Flags())
      ensures IsWinner(group.players, winningPoints, winner)
      ensures winner.None? ==> forall i :: 0 <= i < |group.players| ==> group.players[i].hand == []
    {
      winner := PeggingPhase();
      if winner.None? {
        winner := HandsPhase();
      }
    }

    /** _play_pegging_phase, then _find_winner. */
    method PeggingPhase() returns (winner: Option<Player>)
      requires Valid()
      modifies group.players`hand, group.players`peggingHand
      ensures Scores(group.players) == old(Scores(group.players))
      ensures IsWinner(group.players, winningPoints, winner)
      ensures FirstAtLeast(old(Scores(group.players)), winningPoints).None? ==>
        forall i :: 0 <= i < |group.players| ==> group.players[i].hand == []
    {
      ghost var streets, played;
      var pegged;
      pegged, streets, played := PlayPeggingPhase();
      winner := CribbageRules.FindWinner(group.players, winningPoints);
    }

    /** _score_hands over emptied hands, then _find_winner: nothing is scored. */
    method HandsPhase() returns (winner: Option<Player>)
      requires Valid() && turnUpCard.Some?
      requires forall i :: 0 <= i < |group.players| ==> group.players[i].hand == []
      modifies group.players`score
      ensures Scores(group.players) == old(Scores(group.players))
      ensures IsWinner(group.players, winningPoints, winner)
    {
      ghost var scores, hands := Scores(group.players), HandsOf(group.players);
      assert |hands| == |scores| && forall i :: 0 <= i < |hands| ==> hands[i] == [];
      EmptyHandsScoreNothing(scores, hands, turnUpCard.value);
      ScoreHands();
      winner := CribbageRules.FindWinner(group.players, winningPoints);
    }

    /**
     * One turn of `play`: deal, crib, the three scoring phases, and, if
     * nobody has won, the hands, crib and turn-up onto the discard pile.
     * A turn that completes changes the scores by his heels alone.
     */
    method PlayTurn() returns (r: Result<Option<Player>>)
      requires Valid()
      modifies this`dealPile, this`discardPile, this`crib, this`turnUpCard
      modifies group.players`hand, group.players`peggingHand, group.players`score
      ensures r.Ok? ==> IsWinner(group.players, winningPoints, r.value)
      ensures r.Err? ==> Scores(group.players) == old(Scores(group.players))
      ensures r.Ok? ==> turnUpCard.Some?
      ensures r.Ok? && turnUpCard.Some? ==>
        Scores(group.players) == CribbageGame.Awarded(old(Scores(group.players)), FirstDealer(group.Flags()).value,
                                                      CribbageGame.HisHeels(turnUpCard.value))
      ensures r == Ok(None) ==> Cleared()
      ensures CardsPerPlayer(|group.players|).Err? ==> r == Err(ValueError)
      ensures r.Err? ==> r.error == ValueError || r.error == IndexError
    {
      ghost var scores, flags := Scores(group.players), group.Flags();
      var o := DealTurn();
      assert Scores(group.players) == scores && group.Flags() == flags;
      if o.Fail? {
        return Err(o.error);
      }
      r := ScoreAndDiscard();
    }

    /** The scoring half of a turn and, when nobody has won, the discard of hands, crib and turn-up. */
    method ScoreAndDiscard() returns (r: Result<Option<Player>>)
      requires Valid()
      modifies this`dealPile, this`discardPile, this`crib, this`turnUpCard
      modifies group.players`hand, group.players`peggingHand, group.players`score
      ensures r.Ok? ==> IsWinner(group.players, winningPoints, r.value) && turnUpCard.Some?
      ensures r.Err? ==> r.error == IndexError && Scores(group.players) == old(Scores(group.players))
      ensures r.Ok? && turnUpCard.Some? ==>
        Scores(group.players) == CribbageGame.Awarded(old(Scores(group.players)), FirstDealer(group.Flags()).value,
                                                      CribbageGame.HisHeels(turnUpCard.value))
      ensures r == Ok(None) ==> Cleared()
    {
      r := ScoreTurn();
      if r.Err? || r.value.Some? {
        return;
      }
      DiscardHandsAndCrib();
    }

    /**
     * play: turns until somebody reaches the winning score, who is
     * returned (the first in seat order). The loop has no bound; `fuel`
     * caps the number of turns the model runs, and None says it ran out
     * with nobody having won. Every score only ever grows, and by an even
     * number of points.
     */
    method Play(fuel: nat) returns (r: Option<Result<Player>>)
      requires Valid()
      modifies this`dealPile, this`discardPile, this`crib, this`turnUpCard
      modifies group.players`hand, group.players`peggingHand, group.players`score
      ensures CribbageGame.Grown(old(Scores(group.players)), Scores(group.players))
      ensures EvenGain(old(Scores(group.players)), Scores(group.players))
      ensures r.Some? && r.value.Ok? ==> IsWinner(group.players, winningPoints, Some(r.value.value))
      ensures r.None? && fuel > 0 ==> FirstAtLeast(Scores(group.players), winningPoints).None?
      ensures CardsPerPlayer(|group.players|).Err? && fuel > 0 ==> r == Some(Err(ValueError))
      ensures r.Some? && r.value.Err? ==> r.value.error == ValueError || r.value.error == IndexError
    {
      var i := 0;
      while i < fuel
        invariant i <= fuel
        invariant CribbageGame.Grown(old(Scores(group.players)), Scores(group.players))
        invariant EvenGain(old(Scores(group.players)), Scores(group.players))
        invariant i > 0 ==> FirstAtLeast(Scores(group.players), winningPoints).None?
        invariant CardsPerPlayer(|group.players|).Err? ==> i == 0
      {
        ghost var before := Scores(group.players);
        var turn := PlayTurn();
        if turn.Ok? {
          HeelsEven(before, FirstDealer(group.Flags()).value, turnUpCard.value);
          CribbageGame.HeelsGrown(before, FirstDealer(group.Flags()).value, turnUpCard.value);
        }
        CribbageGame.GrownTrans(old(Scores(group.players)), before, Scores(group.players));
        EvenGainTrans(old(Scores(group.players)), before, Scores(group.players));
        if turn.Err? {
          return Some(Err(turn.error));
        }
        if turn.value.Some? {
          return Some(Ok(turn.value.value));
        }
        i := i + 1;
      }
      r := None;
    }
  }
}
