/**
 * Card values for counting in cribbage (pycards/games/cribbage/util.py and
 * _cribbage_card_value of pycards/games/cribbage.py, which agree): Ace to
 * Nine count their face, Ten and the court cards count ten.
 */
module CribbageValues {
  import opened Cards

  /** cribbage_card_value: the rank plus one, capped at ten. */
  function CardValue(c: Card): (v: nat)
    ensures 1 <= v <= 10 && v <= c.rank + 1
    ensures v == 10 <==> c.rank >= Ten
    ensures c.rank < Ten ==> v == c.rank + 1
  {
    if c.rank < Ten then c.rank + 1 else 10
  }

  /** compute_current_pegging_score: the summed card values. */
  function PeggingTotal(s: seq<Card>): (t: nat)
    ensures |s| <= t <= 10 * |s|
  {
    if s == [] then 0 else CardValue(s[0]) + PeggingTotal(s[1..])
  }

  /** The summed rank-plus-one of the cards, the uncapped count. */
  function FaceTotal(s: seq<Card>): nat {
    if s == [] then 0 else s[0].rank + 1 + FaceTotal(s[1..])
  }

  /** The total of no cards is 0, and playing a card adds exactly its value. */
  lemma {:induction false} PeggingTotalAppend(s: seq<Card>, c: Card)
    ensures PeggingTotal([]) == 0
    ensures PeggingTotal(s + [c]) == PeggingTotal(s) + CardValue(c)
  {
    if s != [] {
      assert (s + [c])[1..] == s[1..] + [c];
      PeggingTotalAppend(s[1..], c);
    }
  }

  /** The capped sum never exceeds the uncapped one. */
  lemma {:induction false} PeggingTotalAtMostFaceTotal(s: seq<Card>)
    ensures PeggingTotal(s) <= FaceTotal(s)
  {
    if s != [] {
      PeggingTotalAtMostFaceTotal(s[1..]);
    }
  }

  /** min(map(cribbage_card_value, s)) of a non-empty collection. */
  function MinValue(s: seq<Card>): (m: nat)
    requires s != []
    ensures exists k :: 0 <= k < |s| && CardValue(s[k]) == m
    ensures forall k :: 0 <= k < |s| ==> m <= CardValue(s[k])
  {
    if |s| == 1 then CardValue(s[0])
    else
      var rest := MinValue(s[1..]);
      assert forall k :: 1 <= k < |s| ==> s[k] == s[1..][k - 1];
      if CardValue(s[0]) <= rest then CardValue(s[0]) else rest
  }
}
