/**
 * The newer Cribbage engine, class Cribbage of
 * pycards/games/cribbage/cribbage.py: the deal pile, the discard pile, the
 * crib and the turn-up card are fields that each phase of a deal updates
 * in place, and `Play` runs deals until somebody reaches the winning
 * score, giving up after 1000 deals.
 *
 * Every card of the deck is always in exactly one of the deal pile, the
 * discard pile, the crib and the players' hands (`Conserved`); the turn-up
 * card goes to the discard pile as soon as it is drawn, and pegging plays
 * from copies of the hands.
 */
module CribbageGame {
  import opened Wrappers
  import opened Cards
  import opened CardPiles
  import opened Players
  import opened CribbageValues
  import opened Scoring
  import opened CribbageRules

  /**
   * What _fix_deal_pile does to the deal and discard piles when `need`
   * cards are required: nothing when the deal pile has enough; otherwise
   * the discard pile, in some shuffled order, goes under the deal pile and
   * the discard pile is left empty.
   */
  ghost predicate Refilled(deal: seq<Card>, discard: seq<Card>, need: int, deal': seq<Card>, discard': seq<Card>) {
    if need <= |deal| then deal' == deal && discard' == discard
    else
      && discard' == []
      && |deal'| == |deal| + |discard|
      && deal'[..|deal|] == deal
      && multiset(deal'[|deal|..]) == multiset(discard)
  }

  /** A refill moves cards between the two piles and loses none. */
  lemma RefilledKeepsCards(deal: seq<Card>, discard: seq<Card>, need: int, deal': seq<Card>, discard': seq<Card>)
    requires Refilled(deal, discard, need, deal', discard')
    ensures multiset(deal') + multiset(discard') == multiset(deal) + multiset(discard)
    ensures |deal'| + |discard'| == |deal| + |discard|
    ensures need <= |deal'| <==> need <= |deal| + |discard|
  {
    if need > |deal| {
      assert deal' == deal'[..|deal|] + deal'[|deal|..];
    }
  }

  /**
   * Cards moved between two places, `p` and `u` becoming `r` and `u'`,
   * while a third holds `d`: the total is unchanged.
   */
  lemma Exchange(r: multiset<Card>, u': multiset<Card>, p: multiset<Card>, u: multiset<Card>, d: multiset<Card>, x: multiset<Card>)
    requires u' + r == u + p && p + d == x
    ensures r + d + u' == x + u
  {
    forall e ensures (r + d + u')[e] == (x + u)[e] {
      assert (u' + r)[e] == (u + p)[e] && (p + d)[e] == x[e];
    }
  }

  /**
   * A card `c` dealt from the front of the refilled deal pile `pile` into
   * the crib: the deal pile, the discard pile and the crib together are
   * unchanged.
   */
  lemma DrawnToCrib(deal: seq<Card>, discard: seq<Card>, crib: seq<Card>, pile: seq<Card>, discard': seq<Card>,
                    c: Card, rest: seq<Card>)
    requires multiset(pile) + multiset(discard') == multiset(deal) + multiset(discard)
    requires pile == [c] + rest
    ensures multiset(rest) + multiset(discard') + multiset(crib + [c])
         == multiset(deal) + multiset(discard) + multiset(crib)
  {
    assert multiset(pile) == multiset(rest) + multiset{c};
    assert multiset(crib + [c]) == multiset(crib) + multiset{c};
  }

  /** Cards given from the hands (`u0` becoming `u'`) to the crib `c0`, the piles `d` aside: the total is unchanged. */
  lemma GiveToCrib(u': multiset<Card>, g: multiset<Card>, u0: multiset<Card>, c0: multiset<Card>, d: multiset<Card>)
    requires u' + g == u0
    ensures d + (c0 + g) + u' == d + c0 + u0
  {
    forall e ensures (d + (c0 + g) + u')[e] == (d + c0 + u0)[e] {
      assert (u' + g)[e] == u0[e];
    }
  }

  /** Every hand holds at least `share` cards. */
  ghost predicate CanGive(hands: seq<seq<Card>>, share: nat) {
    forall k :: 0 <= k < |hands| ==> |hands[k]| >= share
  }

  /** Each hand of `after` is its counterpart in `before` short of `share` cards. */
  ghost predicate Given(before: seq<seq<Card>>, after: seq<seq<Card>>, share: nat) {
    |after| == |before| && forall k :: 0 <= k < |before| ==> |after[k]| == |before[k]| - share
  }

  /** Each seat's score plus the score of its hand with turn-up card `c`. */
  ghost function HandsScored(scores: seq<int>, hands: seq<seq<Card>>, c: Card): (r: seq<int>)
    requires |hands| == |scores|
    ensures |r| == |scores|
    ensures forall i :: 0 <= i < |scores| ==> r[i] == scores[i] + HandScore(hands[i], c, false)
    ensures Grown(scores, r)
  {
    seq(|scores|, i requires 0 <= i < |scores| => scores[i] + HandScore(hands[i], c, false))
  }

  /** No score of `before` has gone down in `after`. */
  ghost predicate Grown(before: seq<int>, after: seq<int>) {
    |after| == |before| && forall i :: 0 <= i < |before| ==> before[i] <= after[i]
  }

  lemma GrownTrans(a: seq<int>, b: seq<int>, c: seq<int>)
    requires Grown(a, b) && Grown(b, c)
    ensures Grown(a, c)
  {
  }
  /** His heels never lowers a score. */
  lemma HeelsGrown(scores: seq<int>, d: nat, c: Card)
    ensures Grown(scores, Awarded(scores, d, HisHeels(c)))
  {
  }


  /** Cards moved between the piles `p` and the hands `u`, the crib `c` aside: the total is unchanged. */
  lemma CribAside(p: multiset<Card>, u: multiset<Card>, p0: multiset<Card>, u0: multiset<Card>, c: multiset<Card>)
    requires p + u == p0 + u0
    ensures p + c + u == p0 + c + u0
  {
    forall e ensures (p + c + u)[e] == (p0 + c + u0)[e] {
      assert (p + u)[e] == (p0 + u0)[e];
    }
  }

  /**
   * The hands `hands` and the crib `crib` put onto the discard pile
   * `discard`, giving `discard'` and leaving every hand of `after` and the
   * crib empty: the total over piles, crib and hands is unchanged.
   */
  lemma Discarded(deal: seq<Card>, discard: seq<Card>, crib: seq<Card>, hands: seq<seq<Card>>,
                  discard': seq<Card>, after: seq<seq<Card>>)
    requires discard' == discard + Flatten(hands, |hands|)
    requires |after| == |hands| && forall i :: 0 <= i < |after| ==> after[i] == []
    ensures multiset(deal) + multiset(discard') + multiset(crib) + Union(after)
         == multiset(deal) + multiset(discard) + multiset(crib) + Union(hands)
  {
    FlattenHands(hands, |hands|);
    UnionToEmpty(after, |after|);
  }

  /** A card moved from one pile to the other: the two together are unchanged. */
  lemma TurnUpMoves(pile: multiset<Card>, discard: multiset<Card>, c: Card)
    requires c in pile
    ensures (pile - multiset{c}) + (discard + multiset{c}) == pile + discard
  {
    forall e ensures ((pile - multiset{c}) + (discard + multiset{c}))[e] == (pile + discard)[e] {
    }
  }

  /** The hands laid end to end hold exactly the cards of the hands. */
  lemma {:induction false} FlattenHands(hs: seq<seq<Card>>, n: nat)
    requires n <= |hs|
    ensures multiset(Flatten(hs, n)) == UnionTo(hs, n)
  {
    if n > 0 {
      FlattenHands(hs, n - 1);
    }
  }

  /** Two points for his heels: the turn-up card is a Jack. */
  function HisHeels(c: Card): (points: nat)
    ensures points == 2 <==> c.rank == Jack
    ensures points == 0 <==> c.rank != Jack
  {
    if c.rank == Jack then 2 else 0
  }

  /** `points` added to seat `d`'s score and to no other. */
  function Awarded(scores: seq<int>, d: nat, points: int): (s: seq<int>)
    ensures |s| == |scores|
    ensures forall i :: 0 <= i < |scores| ==> s[i] == scores[i] + (if i == d then points else 0)
  {
    if d < |scores| then scores[d := scores[d] + points] else scores
  }

  /**
   * _decide_dealer: some player of the group, chosen at random, becomes
   * the only dealer; the random choice from an empty group is a ValueError.
   */
  method DecideDealer(g: PlayerGroup) returns (r: Result<nat>)
    requires g.Valid()
    modifies g.players`isDealer
    ensures r.Err? <==> |g.players| == 0
    ensures r.Err? ==> r.error == ValueError
    ensures r.Ok? ==> OnlyDealer(g.Flags(), r.value)
  {
    if |g.players| == 0 {
      return Err(ValueError);
    }
    var k :| 0 <= k < |g.players|;
    var o := g.SetDealer(g.players[k]);
    r := Ok(k);
  }

  /**
   * The piles of _fix_deal_pile held as sequences: when `deal` has fewer
   * than `need` cards, `discard` is shuffled and all of it played onto the
   * end of `deal`.
   */
  method Refill(deal: seq<Card>, discard: seq<Card>, need: int) returns (deal': seq<Card>, discard': seq<Card>)
    ensures Refilled(deal, discard, need, deal', discard')
  {
    deal', discard' := deal, discard;
    if need > |deal| {
      var from := new CardPile(discard);
      from.Shuffle();
      var moved := from.PlayAll();
      assert |moved| == |multiset(moved)| == |multiset(discard)| == |discard|;
      var to := new CardPile(deal);
      var extra := new CardPile(moved);
      to.AddCards(extra);
      assert to.cards[..|deal|] == deal && to.cards[|deal|..] == moved;
      deal', discard' := to.cards, from.cards;
    }
  }

  /** Cards.deal_card on a pile held as a sequence: the first card and the rest; IndexError when empty. */
  method DealFront(cards: seq<Card>) returns (r: Result<Card>, rest: seq<Card>)
    ensures cards == [] ==> r == Err(IndexError) && rest == cards
    ensures cards != [] ==> r == Ok(cards[0]) && rest == cards[1..] && cards == [cards[0]] + rest
  {
    var pile := new CardPile(cards);
    r := pile.DealCard();
    rest := pile.cards;
  }

  /**
   * One card for the crib, on the piles as values: the deal pile is
   * refilled if it is empty, then its front card goes into the crib;
   * IndexError when both piles are empty. No card is lost or made.
   */
  method DrawToCrib(deal: seq<Card>, discard: seq<Card>, crib: seq<Card>)
    returns (o: Outcome, deal': seq<Card>, discard': seq<Card>, crib': seq<Card>)
    ensures o == Pass <==> |deal| + |discard| >= 1
    ensures o.Fail? ==> o.error == IndexError && crib' == crib
    ensures o == Pass ==> |crib'| == |crib| + 1 && |deal'| + |discard'| + 1 == |deal| + |discard|
    ensures multiset(deal') + multiset(discard') + multiset(crib') == multiset(deal) + multiset(discard) + multiset(crib)
  {
    deal', discard' := Refill(deal, discard, 1);
    RefilledKeepsCards(deal, discard, 1, deal', discard');
    crib' := crib;
    var c, rest := DealFront(deal');
    if c.Err? {
      return Fail(IndexError), deal', discard', crib';
    }
    DrawnToCrib(deal, discard, crib, deal', discard', c.value, rest);
    deal', crib' := rest, crib + [c.value];
    o := Pass;
  }

  /** Cards.play_random_card on a pile held as a sequence: a card of the pile and the pile without it; IndexError when empty. */
  method PlayRandomFrom(cards: seq<Card>) returns (r: Result<Card>, rest: seq<Card>)
    ensures cards == [] <==> r.Err?
    ensures r.Err? ==> r.error == IndexError && rest == cards
    ensures r.Ok? ==> r.value in cards && rest == RemoveFirst(cards, r.value)
  {
    var pile := new CardPile(cards);
    r := pile.PlayRandomCard();
    rest := pile.cards;
  }

  /** The loop of _score_hands: seat by seat, the score grows by the score of the hand with turn-up `c`. */
  method ScoreEachHand(ps: seq<Player>, c: Card)
    requires DistinctPlayers(ps)
    modifies ps`score
    ensures Scores(ps) == HandsScored(old(Scores(ps)), HandsOf(ps), c)
    ensures HandsOf(ps) == old(HandsOf(ps))
  {
    ghost var s0, hands := Scores(ps), HandsOf(ps);
    for i := 0 to |ps|
      invariant forall k :: 0 <= k < i ==> ps[k].score == s0[k] + HandScore(hands[k], c, false)
      invariant forall k :: i <= k < |ps| ==> ps[k].score == s0[k]
    {
      var points := ScoreHand(ps[i].hand, c, false);
      OthersDiffer(ps, i);
      ps[i].score := ps[i].score + points;
    }
    ghost var r := HandsScored(s0, hands, c);
    assert forall k :: 0 <= k < |ps| ==> Scores(ps)[k] == r[k];
    assert HandsOf(ps) == hands;
  }

  /**
   * The scoring half of _choose_turn_up: two points to the dealer for a
   * Jack turned up, then the winner, if any.
   */
  method ScoreTurnUp(group: PlayerGroup, w: int, c: Card) returns (winner: Option<Player>)
    requires group.Valid() && FirstDealer(group.Flags()).Some?
    modifies group.players`score
    ensures Scores(group.players) == Awarded(old(Scores(group.players)), FirstDealer(group.Flags()).value, HisHeels(c))
    ensures IsWinner(group.players, w, winner)
  {
    ghost var before := Scores(group.players);
    ghost var k := FirstDealer(group.Flags()).value;
    if c.rank == Jack {
      AwardDealer(group, 2);
    } else {
      assert Awarded(before, k, 0) == before;
    }
    winner := FindWinner(group.players, w);
  }

  /** `self.players.dealer.score += points`: only the dealer's score changes. */
  method AwardDealer(group: PlayerGroup, points: int)
    requires group.Valid() && FirstDealer(group.Flags()).Some?
    modifies group.players`score
    ensures Scores(group.players) == Awarded(old(Scores(group.players)), FirstDealer(group.Flags()).value, points)
  {
    var d := group.Dealer();
    var ps := group.players;
    ghost var flags := group.Flags();
    ghost var k := FirstDealer(flags).value;
    ghost var before := Scores(ps);
    OthersDiffer(ps, k);
    d.value.score := d.value.score + points;
    assert forall i :: 0 <= i < |ps| ==> Scores(ps)[i] == Awarded(before, k, points)[i];
    assert Scores(ps) == Awarded(before, k, points);
    assert group.Flags() == flags;
  }

  /** Cards.play_all on a pile held as a sequence: every card, in order, leaving the pile empty. */
  method PlayAllFrom(cards: seq<Card>) returns (played: seq<Card>, rest: seq<Card>)
    ensures played == cards && rest == []
  {
    var pile := new CardPile(cards);
    played := pile.PlayAll();
    rest := pile.cards;
  }

  /** The loop of the hands half of _discard_hands_and_crib: hand by hand in seat order onto `discard`. */
  method DiscardSeats(ps: seq<Player>, discard: seq<Card>) returns (discard': seq<Card>)
    requires DistinctPlayers(ps)
    modifies ps`hand
    ensures discard' == discard + Flatten(old(HandsOf(ps)), |ps|)
    ensures forall i :: 0 <= i < |ps| ==> ps[i].hand == []
  {
    ghost var hands := HandsOf(ps);
    discard' := discard;
    for i := 0 to |ps|
      invariant discard' == discard + Flatten(hands, i)
      invariant forall k :: 0 <= k < i ==> ps[k].hand == []
      invariant forall k :: i <= k < |ps| ==> ps[k].hand == hands[k]
    {
      var played, rest := PlayAllFrom(ps[i].hand);
      OthersDiffer(ps, i);
      ps[i].hand := rest;
      discard' := discard' + played;
    }
  }

  class Cribbage {
    const group: PlayerGroup
    const winningPoints: int
    var dealPile: seq<Card>
    var discardPile: seq<Card>
    var crib: seq<Card>
    var turnUpCard: Option<Card>

    /** Each player is seated once, and somebody holds the dealer flag. */
    ghost predicate Valid()
      reads this, group, group.players
    {
      group.Valid() && FirstDealer(group.Flags()).Some?
    }

    /** All the cards of the deal pile, the discard pile, the crib and the hands. */
    ghost function Total(): multiset<Card>
      reads this, group.players
    {
      multiset(dealPile) + multiset(discardPile) + multiset(crib) + Union(HandsOf(group.players))
    }

    /** Every card of one standard deck is in exactly one pile or hand. */
    ghost predicate Conserved()
      reads this, group.players
    {
      Total() == multiset(DeckOrder())
    }

    /** The cards left to deal from: the deal pile and the discard pile. */
    ghost function Free(): nat
      reads this
    {
      |dealPile| + |discardPile|
    }

    /** Between deals: no player holds cards and the crib is empty. */
    ghost predicate Cleared()
      reads this, group.players
    {
      crib == [] && forall i :: 0 <= i < |group.players| ==> group.players[i].hand == []
    }

    /**
     * Cribbage(players, winning_points): a shuffled standard deck to deal
     * from, empty discard pile and crib, no turn-up card yet, and a dealer
     * chosen at random among the players (_decide_dealer). A non-empty
     * group is required here; Create models the empty group's ValueError.
     */
    constructor (g: PlayerGroup, w: int)
      requires g.Valid() && |g.players| >= 1
      modifies g.players`isDealer
      ensures group == g && winningPoints == w
      ensures multiset(dealPile) == multiset(DeckOrder()) && discardPile == [] && crib == [] && turnUpCard == None
      ensures exists k :: OnlyDealer(g.Flags(), k)
    {
      group := g;
      winningPoints := w;
      var deck := CardPile.StandardDeck(true);
      dealPile := deck.cards;
      discardPile := [];
      crib := [];
      turnUpCard := None;
      new;
      ghost var cards := multiset(dealPile);
      var k := DecideDealer(g);
      assert OnlyDealer(g.Flags(), k.value);
      assert multiset(dealPile) == cards;
    }

    /**
     * Cribbage(players, winning_points) with its error path: an empty group
     * makes _decide_dealer raise ValueError, so no game is made.
     */
    static method Create(g: PlayerGroup, w: int) returns (r: Result<Cribbage>)
      requires g.Valid()
      modifies g.players`isDealer
      ensures r.Err? <==> |g.players| == 0
      ensures r.Err? ==> r.error == ValueError
      ensures r.Ok? ==> fresh(r.value) && r.value.group == g && r.value.winningPoints == w
      ensures r.Ok? ==> multiset(r.value.dealPile) == multiset(DeckOrder()) && r.value.discardPile == []
      ensures r.Ok? ==> r.value.crib == [] && r.value.turnUpCard == None
      ensures r.Ok? ==> exists k :: OnlyDealer(g.Flags(), k)
    {
      if |g.players| == 0 {
        return Err(ValueError);
      }
      var game := new Cribbage(g, w);
      r := Ok(game);
    }

    /**
     * _fix_deal_pile: when fewer than `need` cards are left to deal, the
     * discard pile is shuffled and all of it moved under the deal pile.
     */
    method FixDealPile(need: int)
      modifies this
      ensures Refilled(old(dealPile), old(discardPile), need, dealPile, discardPile)
      ensures crib == old(crib) && turnUpCard == old(turnUpCard)
    {
      dealPile, discardPile := Refill(dealPile, discardPile, need);
    }

    /**
     * _deal_cards_to_players: ValueError for a bad number of players.
     * Otherwise the deal pile is refilled if it is short of a whole deal,
     * and seat k, in seat order, gets the k-th block of cards_per_player
     * cards from the front of it. The deal only runs out of cards
     * (IndexError) when the two piles together hold less than a deal.
     * No card is lost or made.
     */
    method DealCardsToPlayers() returns (o: Outcome, ghost pile: seq<Card>)
      requires group.Valid()
      modifies this, group.players`hand
      ensures crib == old(crib) && turnUpCard == old(turnUpCard)
      ensures CardsPerPlayer(|group.players|).Err? ==>
        o == Fail(ValueError) && dealPile == old(dealPile) && discardPile == old(discardPile)
        && HandsOf(group.players) == old(HandsOf(group.players))
      ensures CardsPerPlayer(|group.players|).Ok? ==>
        Dealt(old(dealPile), old(discardPile), old(HandsOf(group.players)), CardsPerPlayer(|group.players|).value, o, pile)
      ensures Total() == old(Total())
    {
      var cpp := CardsPerPlayer(|group.players|);
      pile := dealPile;
      if cpp.Err? {
        return Fail(ValueError), pile;
      }
      o, pile := DealRound(cpp.value);
    }

    /**
     * The state after a deal of `cpp` cards to each player, from piles
     * `deal` and `discard` and hands `hands`: the deal pile was refilled to
     * `pile` if short of a whole deal, each seat got its block of `pile`,
     * and only a deal pile still too short fails, with IndexError.
     */
    ghost predicate Dealt(deal: seq<Card>, discard: seq<Card>, hands: seq<seq<Card>>, cpp: nat, o: Outcome, pile: seq<Card>)
      reads this, group, group.players
    {
      var n := |group.players|;
      && Refilled(deal, discard, n * cpp, pile, discardPile)
      && (o == Pass <==> n * cpp <= |deal| + |discard|)
      && (o.Fail? ==> o.error == IndexError)
      && |hands| == n && HandsOf(group.players) == DealtHands(hands, pile, cpp, n)
      && dealPile == DealtRest(pile, cpp, n)
    }

    /** _deal_cards_to_players once the number of cards per player is known. */
    method DealRound(cpp: nat) returns (o: Outcome, ghost pile: seq<Card>)
      requires group.Valid()
      modifies this, group.players`hand
      ensures crib == old(crib) && turnUpCard == old(turnUpCard)
      ensures Dealt(old(dealPile), old(discardPile), old(HandsOf(group.players)), cpp, o, pile)
      ensures Total() == old(Total())
    {
      var ps := group.players;
      FixDealPile(|ps| * cpp);
      pile := dealPile;
      RefilledKeepsCards(old(dealPile), old(discardPile), |ps| * cpp, pile, discardPile);
      ghost var discard := discardPile;
      o := DealFromPile(cpp);
      Exchange(multiset(dealPile), Union(HandsOf(ps)), multiset(pile), old(Union(HandsOf(group.players))), multiset(discard),
               old(multiset(dealPile) + multiset(discardPile)));
      CribAside(multiset(dealPile) + multiset(discardPile), Union(HandsOf(ps)),
                old(multiset(dealPile) + multiset(discardPile)), old(Union(HandsOf(group.players))), multiset(crib));
    }

    /** Each seat in turn takes its block of `cpp` cards from the front of the deal pile. */
    method DealFromPile(cpp: nat) returns (o: Outcome)
      requires group.Valid()
      modifies this`dealPile, group.players`hand
      ensures o == Pass <==> |group.players| * cpp <= |old(dealPile)|
      ensures o.Fail? ==> o.error == IndexError
      ensures HandsOf(group.players) == DealtHands(old(HandsOf(group.players)), old(dealPile), cpp, |group.players|)
      ensures dealPile == DealtRest(old(dealPile), cpp, |group.players|)
      ensures Union(HandsOf(group.players)) + multiset(dealPile) == old(Union(HandsOf(group.players)) + multiset(dealPile))
    {
      var ps := group.players;
      ghost var hands := HandsOf(ps);
      ghost var pile := dealPile;
      o, dealPile := DealFromFront(ps, dealPile, cpp);
      DealtConserves(hands, pile, cpp, |ps|);
    }

    /**
     * _receive_crib_cards_from_players: each player in seat order gives
     * two cards with two players and one with three or four; with three
     * players one more card is dealt into the crib, after refilling the
     * deal pile if it is empty. A player who cannot give their share
     * raises ValueError, an empty pair of piles IndexError. Cards only
     * move, from the hands and the deal pile into the crib.
     */
    method ReceiveCribCards() returns (o: Outcome)
      requires group.Valid()
      modifies this`dealPile, this`discardPile, this`crib, group.players`hand
      ensures turnUpCard == old(turnUpCard)
      ensures o == Pass <==>
        && CanGive(old(HandsOf(group.players)), CribShare(|group.players|))
        && (|group.players| == 3 ==> |old(dealPile)| + |old(discardPile)| >= 1)
      ensures o.Fail? ==> o.error == ValueError || o.error == IndexError
      ensures o == Pass ==>
        && |crib| == |old(crib)| + |group.players| * CribShare(|group.players|) + (if |group.players| == 3 then 1 else 0)
        && Given(old(HandsOf(group.players)), HandsOf(group.players), CribShare(|group.players|))
      ensures |group.players| != 3 ==> dealPile == old(dealPile) && discardPile == old(discardPile)
      ensures |group.players| == 3 && o == Pass ==> Free() + 1 == old(Free())
      ensures Total() == old(Total())
    {
      var n := |group.players|;
      o := GiveCribShares();
      if o.Fail? || n != 3 {
        return;
      }
      o := DealToCrib();
    }

    /**
     * The giving half of _receive_crib_cards_from_players: each player in
     * seat order gives CribShare cards to the crib; ValueError from the
     * first player who holds too few.
     */
    method GiveCribShares() returns (o: Outcome)
      requires group.Valid()
      modifies this`crib, group.players`hand
      ensures o == Pass <==> CanGive(old(HandsOf(group.players)), CribShare(|group.players|))
      ensures o.Fail? ==> o.error == ValueError
      ensures o == Pass ==>
        && |crib| == |old(crib)| + |group.players| * CribShare(|group.players|)
        && Given(old(HandsOf(group.players)), HandsOf(group.players), CribShare(|group.players|))
      ensures Total() == old(Total())
    {
      var ps := group.players;
      var given;
      ghost var hands := HandsOf(ps);
      o, given := CollectCribCards(ps, CribShare(|ps|));
      crib := crib + given;
      GiveToCrib(Union(HandsOf(ps)), multiset(given), Union(hands), multiset(old(crib)), multiset(dealPile) + multiset(discardPile));
    }

    /**
     * The three-player step of _receive_crib_cards_from_players: one card
     * from the front of the deal pile, refilled first if it is empty, goes
     * into the crib; IndexError when both piles are empty.
     */
    method DealToCrib() returns (o: Outcome)
      modifies this`dealPile, this`discardPile, this`crib
      ensures o == Pass <==> |old(dealPile)| + |old(discardPile)| >= 1
      ensures o.Fail? ==> o.error == IndexError && crib == old(crib)
      ensures o == Pass ==> |crib| == |old(crib)| + 1 && Free() + 1 == old(Free())
      ensures turnUpCard == old(turnUpCard)
      ensures Total() == old(Total())
    {
      ghost var hands := HandsOf(group.players);
      o, dealPile, discardPile, crib := DrawToCrib(dealPile, discardPile, crib);
      assert HandsOf(group.players) == hands;
    }

    /** `winner` is the first player, in seat order, whose score reaches the winning score, if any. */
    ghost predicate Declares(winner: Option<Player>)
      reads this, group, group.players
    {
      IsWinner(group.players, winningPoints, winner)
    }

    /**
     * The piles after drawing the turn-up from piles `deal` and `discard`:
     * they were refilled to `pile` and `discard'` if the deal pile was
     * empty; nothing is drawn exactly when `pile` is empty; otherwise the
     * drawn card, one of `pile`, is the turn-up, has left the deal pile
     * and is on top of the discard pile.
     */
    ghost predicate TurnedUp(deal: seq<Card>, discard: seq<Card>, pile: seq<Card>, discard': seq<Card>, drawn: Option<Card>)
      reads this
    {
      && Refilled(deal, discard, 1, pile, discard')
      && (drawn.None? <==> pile == [])
      && (drawn.None? ==> dealPile == pile && discardPile == discard')
      && (drawn.Some? ==>
            && turnUpCard == drawn && drawn.value in pile
            && dealPile == RemoveFirst(pile, drawn.value) && discardPile == discard' + [drawn.value])
      && multiset(dealPile) + multiset(discardPile) == multiset(deal) + multiset(discard)
    }

    /**
     * _choose_turn_up: refills the deal pile if it is empty, draws a card
     * from it at random (IndexError when there is none), records it and
     * puts it on the discard pile. The dealer scores 2 exactly when it is
     * a Jack; nobody else's score changes. The winner, if any, is returned.
     */
    method ChooseTurnUp() returns (r: Result<Option<Player>>, ghost pile: seq<Card>, ghost discard: seq<Card>)
      requires Valid()
      modifies this, group.players`score
      ensures TurnedUp(old(dealPile), old(discardPile), pile, discard, if r.Ok? then turnUpCard else None)
      ensures crib == old(crib) && HandsOf(group.players) == old(HandsOf(group.players))
      ensures r.Err? ==> r.error == IndexError && Scores(group.players) == old(Scores(group.players))
      ensures r.Ok? ==> turnUpCard.Some? && Declares(r.value)
      ensures r.Ok? && turnUpCard.Some? ==>
        Scores(group.players) == Awarded(old(Scores(group.players)), FirstDealer(group.Flags()).value, HisHeels(turnUpCard.value))
      ensures Total() == old(Total())
    {
      var drawn;
      drawn, pile, discard := TurnUpCard();
      if drawn.Err? {
        return Err(IndexError), pile, discard;
      }
      var winner := ScoreTurnedUp(drawn.value);
      r := Ok(winner);
    }

    /** ScoreTurnUp, which leaves the hands and the piles alone. */
    method ScoreTurnedUp(c: Card) returns (winner: Option<Player>)
      requires Valid()
      modifies group.players`score
      ensures Scores(group.players) == Awarded(old(Scores(group.players)), FirstDealer(group.Flags()).value, HisHeels(c))
      ensures Declares(winner)
      ensures HandsOf(group.players) == old(HandsOf(group.players)) && Total() == old(Total())
    {
      ghost var hands, total := HandsOf(group.players), Total();
      winner := ScoreTurnUp(group, winningPoints, c);
      assert HandsOf(group.players) == hands;
      assert Total() == total;
    }

    /** DrawTurnUp, which leaves the hands, the scores and the crib alone. */
    method TurnUpCard() returns (r: Result<Card>, ghost pile: seq<Card>, ghost discard: seq<Card>)
      modifies this
      ensures TurnedUp(old(dealPile), old(discardPile), pile, discard, if r.Ok? then turnUpCard else None)
      ensures r.Ok? ==> turnUpCard == Some(r.value)
      ensures r.Err? ==> r.error == IndexError
      ensures crib == old(crib)
      ensures HandsOf(group.players) == old(HandsOf(group.players)) && Scores(group.players) == old(Scores(group.players))
      ensures Total() == old(Total())
    {
      ghost var hands, total, scores := HandsOf(group.players), Total(), Scores(group.players);
      r, pile, discard := DrawTurnUp();
      assert HandsOf(group.players) == hands && Scores(group.players) == scores;
      assert Total() == total;
    }

    /**
     * The drawing half of _choose_turn_up: a random card of the refilled
     * deal pile becomes the turn-up and goes onto the discard pile.
     */
    method DrawTurnUp() returns (r: Result<Card>, ghost pile: seq<Card>, ghost discard: seq<Card>)
      modifies this
      ensures TurnedUp(old(dealPile), old(discardPile), pile, discard, if r.Ok? then turnUpCard else None)
      ensures r.Ok? ==> turnUpCard == Some(r.value)
      ensures r.Err? ==> r.error == IndexError
      ensures crib == old(crib)
    {
      FixDealPile(1);
      pile, discard := dealPile, discardPile;
      RefilledKeepsCards(old(dealPile), old(discardPile), 1, pile, discard);
      var rest;
      r, rest := PlayRandomFrom(dealPile);
      if r.Err? {
        return;
      }
      var c := r.value;
      dealPile := rest;
      turnUpCard := Some(c);
      discardPile := discardPile + [c];
      assert multiset(dealPile) + multiset(discardPile) == multiset(pile) + multiset(discard) by {
        RemoveFirstCounts(pile, c);
        TurnUpMoves(multiset(pile), multiset(discard), c);
      }
    }

    /**
     * _play_pegging_phase of the newer engine: pegs from copies of the
     * hands, so hands and scores come through unchanged. It is true
     * exactly when somebody has already won and somebody holds a card;
     * otherwise the copies are played out (no street over 31) and it is
     * false.
     */
    method PlayPeggingPhase()
      returns (r: Result<bool>, ghost piles: seq<seq<Card>>, ghost streets: seq<seq<Card>>, ghost played: seq<Card>)
      requires Valid()
      modifies group.players`hand, group.players`peggingHand
      ensures r.Ok? && (r.value <==> old(AnyCards(group.players, true)) && FirstAtLeast(old(Scores(group.players)), winningPoints).Some?)
      ensures HandsOf(group.players) == old(HandsOf(group.players)) && Scores(group.players) == old(Scores(group.players))
      ensures PegPilesOf(group.players, false) == piles
      ensures !r.value ==> forall i :: 0 <= i < |piles| ==> piles[i] == []
      ensures Union(piles) + multiset(played) == Union(old(HandsOf(group.players)))
      ensures played == StreetCards(streets)
      ensures forall i :: 0 <= i < |streets| ==> streets[i] != [] && PeggingTotal(streets[i]) <= 31
      ensures Total() == old(Total())
    {
      r, piles, streets, played := PegPhase(group, winningPoints, false);
    }

    /** _score_hands: every player's score grows by the score of their hand with the turn-up. */
    method ScoreHands()
      requires group.Valid() && turnUpCard.Some?
      modifies group.players`score
      ensures Scores(group.players) == HandsScored(old(Scores(group.players)), HandsOf(group.players), turnUpCard.value)
      ensures HandsOf(group.players) == old(HandsOf(group.players))
      ensures Total() == old(Total())
    {
      ScoreEachHand(group.players, turnUpCard.value);
    }

    /**
     * _discard_hands_and_crib: every hand, in seat order, then the crib go
     * onto the discard pile, leaving the hands and the crib empty.
     */
    method DiscardHandsAndCrib()
      requires group.Valid()
      modifies this`discardPile, this`crib, group.players`hand
      ensures discardPile == old(discardPile) + Flatten(old(HandsOf(group.players)), |group.players|) + old(crib)
      ensures Cleared()
      ensures Total() == old(Total())
      ensures Scores(group.players) == old(Scores(group.players))
    {
      ghost var scores := Scores(group.players);
      DiscardHands();
      ghost var discard := discardPile;
      assert Scores(group.players) == scores;
      DiscardCrib();
      assert discardPile == discard + old(crib);
    }

    /** The crib half of _discard_hands_and_crib: the crib goes onto the discard pile. */
    method DiscardCrib()
      modifies this`discardPile, this`crib
      ensures discardPile == old(discardPile) + old(crib) && crib == []
      ensures Total() == old(Total())
    {
      var cards, rest := PlayAllFrom(crib);
      discardPile := discardPile + cards;
      crib := rest;
    }

    /** The hands half of _discard_hands_and_crib: each hand in seat order goes onto the discard pile. */
    method DiscardHands()
      requires group.Valid()
      modifies this`discardPile, group.players`hand
      ensures discardPile == old(discardPile) + Flatten(old(HandsOf(group.players)), |group.players|)
      ensures forall i :: 0 <= i < |group.players| ==> group.players[i].hand == []
      ensures Total() == old(Total())
    {
      ghost var hands, total := HandsOf(group.players), Total();
      ghost var discard0 := discardPile;
      discardPile := DiscardSeats(group.players, discardPile);
      Discarded(dealPile, discard0, crib, hands, discardPile, HandsOf(group.players));
      assert Total() == total;
    }

    /** Between deals the deal and discard piles hold the whole deck. */
    lemma ClearedFree()
      requires Conserved() && Cleared()
      ensures Free() == 52
    {
      DeckOrderSpec();
      UnionToEmpty(HandsOf(group.players), |group.players|);
      assert |Total()| == |multiset(DeckOrder())| == 52;
    }

    /**
     * The dealing half of a turn of play: _deal_cards_to_players, then
     * _receive_crib_cards_from_players. Only a bad number of players
     * stops it when it starts between deals from the whole deck, and then
     * cards are still left for the turn-up.
     */
    method DealTurn() returns (o: Outcome)
      requires Valid()
      modifies this, group.players`hand
      ensures turnUpCard == old(turnUpCard)
      ensures Total() == old(Total())
      ensures CardsPerPlayer(|group.players|).Err? ==> o == Fail(ValueError)
      ensures o.Fail? ==> o.error == ValueError || o.error == IndexError
      ensures old(Cleared()) && old(Free()) == 52 && CardsPerPlayer(|group.players|).Ok? ==> o == Pass && Free() >= 1
    {
      ghost var start := Cleared() && Free() == 52;
      ghost var pile;
      o, pile := DealCardsToPlayers();
      if o.Fail? {
        return;
      }
      ghost var dealt := Free();
      ghost var hands := HandsOf(group.players);
      if start {
        DealtFresh(old(dealPile), old(discardPile), old(HandsOf(group.players)), pile);
      }
      o := ReceiveCribCards();
      if start {
        RoundFits(|group.players|);
      }
    }

    /**
     * A deal of cpp cards each from the whole deck into empty hands: every
     * hand gets cpp cards, and the deck less those cards is left.
     */
    lemma DealtFresh(deal: seq<Card>, discard: seq<Card>, hands: seq<seq<Card>>, pile: seq<Card>)
      requires CardsPerPlayer(|group.players|).Ok? && |hands| == |group.players|
      requires |deal| + |discard| == 52 && forall k :: 0 <= k < |hands| ==> hands[k] == []
      requires Dealt(deal, discard, hands, CardsPerPlayer(|group.players|).value, Pass, pile)
      ensures CanGive(HandsOf(group.players), CribShare(|group.players|))
      ensures Free() + |group.players| * CardsPerPlayer(|group.players|).value == 52
    {
      var n, cpp := |group.players|, CardsPerPlayer(|group.players|).value;
      RefilledKeepsCards(deal, discard, n * cpp, pile, discardPile);
      DealFull(hands, pile, cpp);
    }

    /**
     * The scoring half of a turn of play: _choose_turn_up,
     * _play_pegging_phase and _score_hands, each followed by a look for a
     * winner, which ends the turn. Scores only grow; with a card left to
     * draw nothing fails.
     */
    method ScoreTurn() returns (r: Result<Option<Player>>)
      requires Valid()
      modifies this, group.players`hand, group.players`peggingHand, group.players`score
      ensures Total() == old(Total())
      ensures Grown(old(Scores(group.players)), Scores(group.players))
      ensures r.Err? ==> r.error == IndexError && old(Free()) == 0
      ensures r.Ok? ==> Declares(r.value)
    {
      r := TurnUpPhase();
      if r.Err? || r.value.Some? {
        return;
      }
      ghost var scores := Scores(group.players);
      var winner := PegAndScoreHands();
      GrownTrans(old(Scores(group.players)), scores, Scores(group.players));
      r := Ok(winner);
    }

    /** The pegging and hand-scoring phases of a turn, stopping at the first winner. */
    method PegAndScoreHands() returns (winner: Option<Player>)
      requires Valid() && turnUpCard.Some?
      modifies group.players`hand, group.players`peggingHand, group.players`score
      ensures Total() == old(Total())
      ensures Grown(old(Scores(group.players)), Scores(group.players))
      ensures Declares(winner)
    {
      winner := PeggingPhase();
      if winner.Some? {
        return;
      }
      ghost var scores := Scores(group.players);
      winner := HandsPhase();
      GrownTrans(old(Scores(group.players)), scores, Scores(group.players));
    }

    /** The first scoring phase of a turn: _choose_turn_up, then _find_winner. */
    method TurnUpPhase() returns (r: Result<Option<Player>>)
      requires Valid()
      modifies this, group.players`score
      ensures Total() == old(Total())
      ensures Grown(old(Scores(group.players)), Scores(group.players))
      ensures r.Err? ==> r.error == IndexError && old(Free()) == 0
      ensures r.Ok? ==> Declares(r.value) && turnUpCard.Some?
    {
      var drawn;
      ghost var pile, discard;
      drawn, pile, discard := ChooseTurnUp();
      if drawn.Err? {
        RefilledKeepsCards(old(dealPile), old(discardPile), 1, pile, discard);
        return Err(IndexError);
      }
      HeelsGrown(old(Scores(group.players)), FirstDealer(group.Flags()).value, turnUpCard.value);
      var winner := FindWinner();
      r := Ok(winner);
    }

    /** The second scoring phase of a turn: _play_pegging_phase, then _find_winner. */
    method PeggingPhase() returns (winner: Option<Player>)
      requires Valid()
      modifies group.players`hand, group.players`peggingHand
      ensures Total() == old(Total())
      ensures Scores(group.players) == old(Scores(group.players))
      ensures Declares(winner)
    {
      ghost var piles, streets, played;
      var pegged;
      pegged, piles, streets, played := PlayPeggingPhase();
      winner := FindWinner();
    }

    /** The third scoring phase of a turn: _score_hands, then _find_winner. */
    method HandsPhase() returns (winner: Option<Player>)
      requires Valid() && turnUpCard.Some?
      modifies group.players`score
      ensures Total() == old(Total())
      ensures Grown(old(Scores(group.players)), Scores(group.players))
      ensures Declares(winner)
    {
      ScoreHands();
      winner := FindWinner();
    }

    /** _find_winner: the first player in seat order whose score reaches the winning score, if any. */
    method FindWinner() returns (winner: Option<Player>)
      ensures Declares(winner)
    {
      winner := CribbageRules.FindWinner(group.players, winningPoints);
    }

    /**
     * One turn of `play`: deal, crib, the three scoring phases, and, if
     * nobody has won, the hands and crib back onto the discard pile.
     * Cards are only moved and scores only grow.
     */
    method PlayTurn() returns (r: Result<Option<Player>>)
      requires Valid()
      modifies this, group.players`hand, group.players`peggingHand, group.players`score
      ensures Total() == old(Total())
      ensures Grown(old(Scores(group.players)), Scores(group.players))
      ensures r.Ok? ==> Declares(r.value)
      ensures r == Ok(None) ==> Cleared()
      ensures CardsPerPlayer(|group.players|).Err? ==> r == Err(ValueError)
      ensures r.Err? ==> r.error == ValueError || r.error == IndexError
      ensures old(Cleared()) && old(Free()) == 52 && CardsPerPlayer(|group.players|).Ok? ==> r.Ok?
    {
      ghost var dealt := Scores(group.players);
      var o := DealTurn();
      assert Scores(group.players) == dealt;
      if o.Fail? {
        return Err(o.error);
      }
      r := ScoreTurn();
      if r.Err? || r.value.Some? {
        return;
      }
      ghost var scored := Scores(group.players);
      DiscardHandsAndCrib();
      assert Scores(group.players) == scored;
    }

    /**
     * play: turns until somebody reaches the winning score, who is
     * returned (the first in seat order), or TimeoutError after 1000
     * turns, when nobody has. Started between deals from the whole deck
     * it fails otherwise only for a bad number of players (ValueError),
     * never for want of cards.
     */
    method Play() returns (r: Result<Player>)
      requires Valid()
      modifies this, group.players`hand, group.players`peggingHand, group.players`score
      ensures Total() == old(Total())
      ensures Grown(old(Scores(group.players)), Scores(group.players))
      ensures r.Ok? ==> Declares(Some(r.value))
      ensures r == Err(TimeoutError) ==> FirstAtLeast(Scores(group.players), winningPoints).None?
      ensures CardsPerPlayer(|group.players|).Err? ==> r == Err(ValueError)
      ensures r.Err? ==> r.error == ValueError || r.error == IndexError || r.error == TimeoutError
      ensures old(Conserved()) && old(Cleared()) && CardsPerPlayer(|group.players|).Ok? ==> r.Ok? || r == Err(TimeoutError)
    {
      ghost var start := Conserved() && Cleared();
      var i := 0;
      while i < 1000
        invariant i <= 1000
        invariant Total() == old(Total())
        invariant Grown(old(Scores(group.players)), Scores(group.players))
        invariant i > 0 ==> Cleared() && FirstAtLeast(Scores(group.players), winningPoints).None?
        invariant start ==> Conserved() && Cleared()
        invariant CardsPerPlayer(|group.players|).Err? ==> i == 0
      {
        if start {
          ClearedFree();
        }
        ghost var before := Scores(group.players);
        var turn := PlayTurn();
        GrownTrans(old(Scores(group.players)), before, Scores(group.players));
        if turn.Err? {
          return Err(turn.error);
        }
        if turn.value.Some? {
          return Ok(turn.value.value);
        }
        i := i + 1;
      }
      r := Err(TimeoutError);
    }
  }
}
