/**
 * The cribbage-specific player behaviour: whether a player can still peg,
 * the random player's choice of crib cards, and its choice of pegging card
 * (pycards/games/cribbage/players.py, and the CribbagePlayer of
 * pycards/games/cribbage.py, which does the same over the hand itself).
 */
module CribbagePlayers {
  import opened Wrappers
  import opened Cards
  import opened CribbageValues
  import opened Players

  /**
   * can_peg over the cards a player has left to peg with: false with no
   * cards, otherwise whether the smallest card value keeps the count at
   * or under 31. The newer engine asks it of `peggingHand`, the older one
   * of `hand`.
   */
  function CanPegWith(cards: seq<Card>, pegged: seq<Card>): (b: bool)
    ensures cards == [] ==> !b
    ensures b <==> exists k :: 0 <= k < |cards| && PeggingTotal(pegged) + CardValue(cards[k]) <= 31
  {
    if |cards| == 0 then false
    else PeggingTotal(pegged) + MinValue(cards) <= 31
  }

  /**
   * `c` is the first card of least value in `cards`, and `rest` is `cards`
   * without that one occurrence.
   */
  ghost predicate PlaysFirstMinimum(cards: seq<Card>, c: Card, rest: seq<Card>)
    requires cards != []
  {
    exists k :: 0 <= k < |cards| && cards[k] == c && CardValue(c) == MinValue(cards)
      && (forall j :: 0 <= j < k ==> CardValue(cards[j]) > CardValue(c))
      && rest == cards[..k] + cards[k + 1..]
  }

  /** The search loop of play_pegging_card: the first position of a card of least value. */
  method FirstOfMinValue(cards: seq<Card>) returns (k: nat)
    requires cards != []
    ensures k < |cards| && CardValue(cards[k]) == MinValue(cards)
    ensures forall j :: 0 <= j < k ==> CardValue(cards[j]) > MinValue(cards)
  {
    var m := MinValue(cards);
    k := 0;
    while CardValue(cards[k]) != m
      invariant k < |cards|
      invariant forall j :: 0 <= j < k ==> CardValue(cards[j]) > m
      invariant exists j :: k <= j < |cards| && CardValue(cards[j]) == m
      decreases |cards| - k
    {
      k := k + 1;
    }
  }

  /**
   * The body of play_pegging_card on a non-empty sequence of cards: finds
   * the first card of least value and plays it (list.remove of that card).
   */
  method TakeFirstMinimum(cards: seq<Card>) returns (c: Card, rest: seq<Card>)
    requires cards != []
    ensures PlaysFirstMinimum(cards, c, rest)
    ensures c in cards && rest == RemoveFirst(cards, c)
  {
    var k := FirstOfMinValue(cards);
    c := cards[k];
    assert c !in cards[..k] by {
      assert forall j :: 0 <= j < k ==> cards[..k][j] == cards[j] && CardValue(cards[j]) != CardValue(c);
    }
    RemoveFirstAt(cards, c, k);
    rest := RemoveFirst(cards, c);
  }

  /** Playing the first card of least value keeps the count at or under 31 whenever the player could peg. */
  lemma PeggingStaysUnder31(cards: seq<Card>, pegged: seq<Card>, c: Card, rest: seq<Card>)
    requires cards != [] && PlaysFirstMinimum(cards, c, rest) && CanPegWith(cards, pegged)
    ensures PeggingTotal(pegged + [c]) <= 31
  {
    PeggingTotalAppend(pegged, c);
  }

  /** Playing a card takes exactly that one card out of the cards played from. */
  lemma PlayRemovesOne(cards: seq<Card>, c: Card, rest: seq<Card>)
    requires cards != [] && PlaysFirstMinimum(cards, c, rest)
    ensures multiset(rest) + multiset{c} == multiset(cards) && |rest| == |cards| - 1
  {
    var k :| 0 <= k < |cards| && cards[k] == c && rest == cards[..k] + cards[k + 1..];
    assert cards == cards[..k] + [c] + cards[k + 1..];
  }

  /**
   * RandomCribbagePlayer.play_pegging_card: ValueError when the pegging
   * copy is empty (min of no values); otherwise removes and returns its
   * first card of least value. The hand itself is not touched.
   */
  method PlayPeggingCard(p: Player, pegged: seq<Card>) returns (r: Result<Card>)
    modifies p`peggingHand
    ensures old(p.peggingHand) == [] ==> r == Err(ValueError) && p.peggingHand == old(p.peggingHand)
    ensures old(p.peggingHand) != [] ==> r.Ok? && PlaysFirstMinimum(old(p.peggingHand), r.value, p.peggingHand)
    ensures CanPegWith(old(p.peggingHand), pegged) ==> r.Ok? && PeggingTotal(pegged + [r.value]) <= 31
    ensures p.hand == old(p.hand) && p.score == old(p.score)
  {
    if p.peggingHand == [] {
      return Err(ValueError);
    }
    var c, rest := TakeFirstMinimum(p.peggingHand);
    if CanPegWith(p.peggingHand, pegged) {
      PeggingStaysUnder31(p.peggingHand, pegged, c, rest);
    }
    p.peggingHand := rest;
    r := Ok(c);
  }

  /**
   * The older engine's play_pegging_card: the same choice, made from and
   * removed from the hand itself.
   */
  method LegacyPlayPeggingCard(p: Player, pegged: seq<Card>) returns (r: Result<Card>)
    modifies p`hand
    ensures old(p.hand) == [] ==> r == Err(ValueError) && p.hand == old(p.hand)
    ensures old(p.hand) != [] ==> r.Ok? && PlaysFirstMinimum(old(p.hand), r.value, p.hand)
    ensures CanPegWith(old(p.hand), pegged) ==> r.Ok? && PeggingTotal(pegged + [r.value]) <= 31
    ensures p.peggingHand == old(p.peggingHand) && p.score == old(p.score)
  {
    if p.hand == [] {
      return Err(ValueError);
    }
    var c, rest := TakeFirstMinimum(p.hand);
    if CanPegWith(p.hand, pegged) {
      PeggingStaysUnder31(p.hand, pegged, c, rest);
    }
    p.hand := rest;
    r := Ok(c);
  }

  /** The elements at two different positions form a sub-multiset. */
  lemma TwoPositions(s: seq<Card>, i: nat, j: nat)
    requires i < |s| && j < |s| && i != j
    ensures multiset([s[i], s[j]]) <= multiset(s)
  {
    var rest := s[..i] + s[i + 1..];
    assert s == s[..i] + [s[i]] + s[i + 1..];
    assert multiset(s) == multiset(rest) + multiset{s[i]};
    if j < i {
      assert rest[j] == s[j];
    } else {
      assert rest[j - 1] == s[j];
    }
    assert s[j] in multiset(rest);
  }

  /**
   * give_cards_to_crib (RandomCribbagePlayer's, and the older
   * CribbagePlayer's, which is the same): ValueError unless one or two
   * cards are asked for; numpy's choice without replacement then picks
   * that many different positions of the hand, failing with ValueError
   * when the hand is too small, and play_cards removes the cards picked.
   */
  method GiveCardsToCrib(p: Player, n: int) returns (r: Result<seq<Card>>)
    modifies p`hand
    ensures n != 1 && n != 2 ==> r == Err(ValueError) && p.hand == old(p.hand)
    ensures (n == 1 || n == 2) && |old(p.hand)| < n ==> r == Err(ValueError) && p.hand == old(p.hand)
    ensures (n == 1 || n == 2) && |old(p.hand)| >= n ==>
      && r.Ok? && |r.value| == n
      && multiset(r.value) + multiset(p.hand) == multiset(old(p.hand))
      && |p.hand| == |old(p.hand)| - n
    ensures p.peggingHand == old(p.peggingHand) && p.score == old(p.score)
  {
    if n != 1 && n != 2 {
      return Err(ValueError);
    }
    if |p.hand| < n {
      return Err(ValueError);
    }
    var i :| 0 <= i < |p.hand|;
    var chosen: seq<Card>;
    if n == 1 {
      chosen := [p.hand[i]];
    } else {
      var j :| 0 <= j < |p.hand| && j != i;
      chosen := [p.hand[i], p.hand[j]];
      TwoPositions(p.hand, i, j);
    }
    RemoveEachSucceeds(p.hand, chosen);
    RemoveEachCounts(p.hand, chosen);
    p.hand := RemoveEach(p.hand, chosen).0;
    r := Ok(chosen);
  }
}
