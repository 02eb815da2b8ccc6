/**
 * The parts of a round that the two Cribbage engines share word for word
 * (pycards/games/cribbage.py and pycards/games/cribbage/cribbage.py): the
 * number of cards per player, the winner search, dealing from the front
 * of the pile, collecting the crib cards, and the pegging loop. The
 * pegging loop differs only in which cards a player pegs from, so it takes
 * a flag: `legacy` pegs from the hand itself, as the older engine does.
 */
module CribbageRules {
  import opened Wrappers
  import opened Cards
  import opened CribbageValues
  import opened Players
  import opened CribbagePlayers

  // ---------------------------------------------------------------------
  // Seats, scores and the winner
  // ---------------------------------------------------------------------

  /** The group holds each player object once. */
  ghost predicate DistinctPlayers(ps: seq<Player>) {
    forall i, j :: 0 <= i < j < |ps| ==> ps[i] != ps[j]
  }

  /** The scores, seat by seat. */
  function Scores(ps: seq<Player>): (s: seq<int>)
    reads ps
    ensures |s| == |ps| && forall i :: 0 <= i < |ps| ==> s[i] == ps[i].score
  {
    seq(|ps|, i reads ps requires 0 <= i < |ps| => ps[i].score)
  }

  /** The first seat whose score reaches `w`, if any. */
  function FirstAtLeast(scores: seq<int>, w: int): (r: Option<nat>)
    ensures r.None? <==> forall i :: 0 <= i < |scores| ==> scores[i] < w
    ensures r.Some? ==> r.value < |scores| && scores[r.value] >= w
    ensures r.Some? ==> forall i :: 0 <= i < r.value ==> scores[i] < w
  {
    if scores == [] then None
    else if scores[0] >= w then Some(0)
    else
      match FirstAtLeast(scores[1..], w)
      case None => None
      case Some(k) => Some(k + 1)
  }

  /** `winner` is the first player, in seat order, whose score reaches `w`, if any. */
  ghost predicate IsWinner(ps: seq<Player>, w: int, winner: Option<Player>)
    reads ps
  {
    var first := FirstAtLeast(Scores(ps), w);
    && (winner.Some? <==> first.Some?)
    && (first.Some? ==> winner == Some(ps[first.value]))
  }

  /** _find_winner: the first player in seat order with at least `w` points, or None. */
  method FindWinner(ps: seq<Player>, w: int) returns (winner: Option<Player>)
    ensures FirstAtLeast(Scores(ps), w).None? ==> winner.None?
    ensures FirstAtLeast(Scores(ps), w).Some? ==> winner == Some(ps[FirstAtLeast(Scores(ps), w).value])
  {
    for i := 0 to |ps|
      invariant forall k :: 0 <= k < i ==> ps[k].score < w
    {
      if ps[i].score >= w {
        return Some(ps[i]);
      }
    }
    return None;
  }

  /** cards_per_player: six each for two players, five each for three or four, else ValueError. */
  function CardsPerPlayer(n: int): (r: Result<nat>)
    ensures r.Err? <==> n < 2 || n > 4
    ensures r.Err? ==> r.error == ValueError
    ensures r.Ok? ==> r.value == if n == 2 then 6 else 5
  {
    if n == 2 then Ok(6)
    else if n == 3 || n == 4 then Ok(5)
    else Err(ValueError)
  }

  /**
   * The crib cards each player gives: two each with two players, one each
   * with three or four, none otherwise (_receive_crib_cards_from_players).
   */
  function CribShare(n: int): nat {
    if n == 2 then 2 else if n == 3 || n == 4 then 1 else 0
  }

  /**
   * A round never needs more cards than a deck holds: the deal, the crib
   * card drawn with three players and the turn-up together take at most
   * 22 of the 52 cards, and each player keeps four cards once the crib
   * is made, which is also what an empty crib ends with.
   */
  lemma RoundFits(n: int)
    requires CardsPerPlayer(n).Ok?
    ensures var cpp := CardsPerPlayer(n).value;
      && n * cpp + (if n == 3 then 1 else 0) + 1 <= 52
      && cpp - CribShare(n) == 4
      && n * CribShare(n) + (if n == 3 then 1 else 0) == 4
  {
  }

  // ---------------------------------------------------------------------
  // Hands as values, for conservation
  // ---------------------------------------------------------------------

  /** The players' hands, seat by seat. */
  ghost function HandsOf(ps: seq<Player>): (hs: seq<seq<Card>>)
    reads ps
    ensures |hs| == |ps| && forall i :: 0 <= i < |ps| ==> hs[i] == ps[i].hand
  {
    seq(|ps|, i reads ps requires 0 <= i < |ps| => ps[i].hand)
  }

  /** All the cards of the first n hands. */
  ghost function UnionTo(hs: seq<seq<Card>>, n: nat): multiset<Card>
    requires n <= |hs|
  {
    if n == 0 then multiset{} else UnionTo(hs, n - 1) + multiset(hs[n - 1])
  }

  /** All the cards of a sequence of hands. */
  ghost function Union(hs: seq<seq<Card>>): multiset<Card> {
    UnionTo(hs, |hs|)
  }

  /** Hands that agree on the first n seats hold the same cards there. */
  lemma {:induction false} UnionToAgree(a: seq<seq<Card>>, b: seq<seq<Card>>, n: nat)
    requires n <= |a| && n <= |b| && forall k :: 0 <= k < n ==> a[k] == b[k]
    ensures UnionTo(a, n) == UnionTo(b, n)
  {
    if n > 0 {
      UnionToAgree(a, b, n - 1);
    }
  }

  lemma {:induction false} UnionToReplace(hs: seq<seq<Card>>, k: nat, r: seq<Card>, n: nat)
    requires k < n <= |hs|
    ensures UnionTo(hs[k := r], n) + multiset(hs[k]) == UnionTo(hs, n) + multiset(r)
    decreases n
  {
    var h' := hs[k := r];
    if n - 1 == k {
      UnionToAgree(h', hs, k);
      Swap(UnionTo(hs, k), multiset(r), multiset(hs[k]));
    } else {
      UnionToReplace(hs, k, r, n - 1);
      Slide(UnionTo(h', n - 1), UnionTo(hs, n - 1), multiset(hs[k]), multiset(r), multiset(hs[n - 1]));
    }
  }

  /** Replacing one hand changes the union by exactly the cards that differ. */
  lemma UnionReplace(hs: seq<seq<Card>>, k: nat, r: seq<Card>)
    requires k < |hs|
    ensures Union(hs[k := r]) + multiset(hs[k]) == Union(hs) + multiset(r)
  {
    UnionToReplace(hs, k, r, |hs|);
  }

  /** Adding cards to one hand adds exactly those cards to the union. */
  lemma UnionGrow(hs: seq<seq<Card>>, k: nat, d: seq<Card>)
    requires k < |hs|
    ensures Union(hs[k := hs[k] + d]) == Union(hs) + multiset(d)
  {
    UnionReplace(hs, k, hs[k] + d);
    CancelGrow(Union(hs[k := hs[k] + d]), Union(hs), multiset(hs[k]), multiset(d), multiset(hs[k] + d));
  }

  /** Hands that are all empty hold nothing. */
  lemma {:induction false} UnionToEmpty(hs: seq<seq<Card>>, n: nat)
    requires n <= |hs| && forall i :: 0 <= i < |hs| ==> hs[i] == []
    ensures UnionTo(hs, n) == multiset{}
  {
    if n > 0 {
      UnionToEmpty(hs, n - 1);
    }
  }

  // Multiset arithmetic, one step each, proved count by count.

  lemma Swap(a: multiset<Card>, b: multiset<Card>, c: multiset<Card>)
    ensures a + b + c == a + c + b
  {
    forall x ensures (a + b + c)[x] == (a + c + b)[x] {
    }
  }

  lemma Slide(a: multiset<Card>, b: multiset<Card>, x: multiset<Card>, y: multiset<Card>, z: multiset<Card>)
    requires a + x == b + y
    ensures a + z + x == b + z + y
  {
    forall e ensures (a + z + x)[e] == (b + z + y)[e] {
      assert (a + x)[e] == (b + y)[e];
    }
  }

  lemma CancelGrow(g: multiset<Card>, u: multiset<Card>, h: multiset<Card>, d: multiset<Card>, hd: multiset<Card>)
    requires g + h == u + hd && hd == h + d
    ensures g == u + d
  {
    forall e ensures g[e] == (u + d)[e] {
      assert (g + h)[e] == (u + hd)[e];
    }
  }

  lemma Cancel(a: multiset<Card>, b: multiset<Card>, c: multiset<Card>)
    requires a + c == b + c
    ensures a == b
  {
    forall x ensures a[x] == b[x] {
      assert (a + c)[x] == (b + c)[x];
    }
  }

  lemma Regroup(g: multiset<Card>, u: multiset<Card>, a: multiset<Card>, b: multiset<Card>, m: multiset<Card>)
    requires g == u + a && m == a + b
    ensures g + b == u + m
  {
    forall x ensures (g + b)[x] == (u + m)[x] {
      assert g[x] == u[x] + a[x] && m[x] == a[x] + b[x];
    }
  }


  // ---------------------------------------------------------------------
  // Dealing and collecting the crib
  // ---------------------------------------------------------------------

  /** `x`, but no more than `n`. */
  function Clamp(x: nat, n: nat): (r: nat)
    ensures r <= n && r <= x && (r == x || r == n)
  {
    if x <= n then x else n
  }

  /** The number of cards the first k seats take from a pile that lasts: k times cpp. */
  function Offset(cpp: nat, k: nat): nat {
    if k == 0 then 0 else Offset(cpp, k - 1) + cpp
  }

  lemma {:induction false} OffsetProduct(cpp: nat, k: nat)
    ensures Offset(cpp, k) == k * cpp
  {
    if k > 0 {
      OffsetProduct(cpp, k - 1);
      assert k * cpp == (k - 1) * cpp + cpp;
    }
  }

  lemma OffsetSucc(cpp: nat, k: nat)
    ensures Offset(cpp, k + 1) == Offset(cpp, k) + cpp
  {
  }

  lemma {:induction false} OffsetMono(cpp: nat, a: nat, b: nat)
    requires a <= b
    ensures Offset(cpp, a) <= Offset(cpp, b)
    decreases b
  {
    if a < b {
      OffsetMono(cpp, a, b - 1);
    }
  }

  /**
   * The cards _deal_cards_to_players gives seat k from `pile`: the k-th
   * block of `cpp` cards, cut short, or empty, where the pile runs out
   * (deal_card raises on an empty pile and nobody gets anything more).
   */
  function Block(pile: seq<Card>, cpp: nat, k: nat): seq<Card> {
    pile[Clamp(Offset(cpp, k), |pile|)..Clamp(Offset(cpp, k) + cpp, |pile|)]
  }

  /** The hands `hs` once the first `i` seats have been dealt to: seat by seat, each adds its block. */
  function DealtHands(hs: seq<seq<Card>>, pile: seq<Card>, cpp: nat, i: nat): (r: seq<seq<Card>>)
    requires i <= |hs|
    ensures |r| == |hs|
  {
    if i == 0 then hs
    else
      var h := DealtHands(hs, pile, cpp, i - 1);
      h[i - 1 := h[i - 1] + Block(pile, cpp, i - 1)]
  }

  /** What is left of the pile once the first `i` seats have been dealt to. */
  function DealtRest(pile: seq<Card>, cpp: nat, i: nat): seq<Card> {
    pile[Clamp(Offset(cpp, i), |pile|)..]
  }

  /** Seat k ends with its own block added if it has been dealt to, and untouched otherwise. */
  lemma {:induction false} DealtHandsAt(hs: seq<seq<Card>>, pile: seq<Card>, cpp: nat, i: nat)
    requires i <= |hs|
    ensures forall k :: 0 <= k < |hs| ==>
      DealtHands(hs, pile, cpp, i)[k] == if k < i then hs[k] + Block(pile, cpp, k) else hs[k]
  {
    if i > 0 {
      DealtHandsAt(hs, pile, cpp, i - 1);
    }
  }

  /**
   * When the pile holds cpp cards for each seat, every seat gets exactly
   * cpp cards, seat k the k-th cpp of them (from Offset(cpp, k) = k * cpp
   * on), and the rest of the pile is left.
   */
  lemma DealFull(hs: seq<seq<Card>>, pile: seq<Card>, cpp: nat)
    requires |hs| * cpp <= |pile|
    ensures forall k :: 0 <= k < |hs| ==>
      Offset(cpp, k) + cpp <= |pile| && DealtHands(hs, pile, cpp, |hs|)[k] == hs[k] + pile[Offset(cpp, k)..Offset(cpp, k) + cpp]
    ensures Offset(cpp, |hs|) == |hs| * cpp && DealtRest(pile, cpp, |hs|) == pile[Offset(cpp, |hs|)..]
  {
    OffsetProduct(cpp, |hs|);
    forall k | 0 <= k < |hs|
      ensures Offset(cpp, k) + cpp <= |pile| && DealtHands(hs, pile, cpp, |hs|)[k] == hs[k] + pile[Offset(cpp, k)..Offset(cpp, k) + cpp]
    {
      DealtSeat(hs, pile, cpp, k);
    }
  }

  /** Seat k of a pile that lasts gets its own block of cpp cards. */
  lemma DealtSeat(hs: seq<seq<Card>>, pile: seq<Card>, cpp: nat, k: nat)
    requires k < |hs| && Offset(cpp, |hs|) <= |pile|
    ensures Offset(cpp, k) + cpp <= |pile|
    ensures DealtHands(hs, pile, cpp, |hs|)[k] == hs[k] + pile[Offset(cpp, k)..Offset(cpp, k) + cpp]
  {
    OffsetMono(cpp, k + 1, |hs|);
    DealtHandsAt(hs, pile, cpp, |hs|);
  }

  /** Dealing moves cards from the pile into the hands and loses none. */
  lemma {:induction false} DealtConserves(hs: seq<seq<Card>>, pile: seq<Card>, cpp: nat, i: nat)
    requires i <= |hs|
    ensures Union(DealtHands(hs, pile, cpp, i)) + multiset(DealtRest(pile, cpp, i)) == Union(hs) + multiset(pile)
  {
    if i > 0 {
      DealtConserves(hs, pile, cpp, i - 1);
      DealtStepConserves(hs, pile, cpp, i);
    }
  }

  /** Dealing to seat i - 1 keeps the cards held by the hands and the pile together. */
  lemma DealtStepConserves(hs: seq<seq<Card>>, pile: seq<Card>, cpp: nat, i: nat)
    requires 0 < i <= |hs|
    requires Union(DealtHands(hs, pile, cpp, i - 1)) + multiset(DealtRest(pile, cpp, i - 1)) == Union(hs) + multiset(pile)
    ensures Union(DealtHands(hs, pile, cpp, i)) + multiset(DealtRest(pile, cpp, i)) == Union(hs) + multiset(pile)
  {
    var b := Block(pile, cpp, i - 1);
    assert DealtRest(pile, cpp, i - 1) == b + DealtRest(pile, cpp, i);
    MoveCards(DealtHands(hs, pile, cpp, i), DealtHands(hs, pile, cpp, i - 1), DealtRest(pile, cpp, i), DealtRest(pile, cpp, i - 1), i - 1, b);
  }

  /** Moving cards `b` from the front of the pile `r0` onto hand k keeps every card. */
  lemma MoveCards(h: seq<seq<Card>>, h0: seq<seq<Card>>, r: seq<Card>, r0: seq<Card>, k: nat, b: seq<Card>)
    requires k < |h0| && h == h0[k := h0[k] + b] && r0 == b + r
    ensures Union(h) + multiset(r) == Union(h0) + multiset(r0)
  {
    UnionGrow(h0, k, b);
    Regroup(Union(h), Union(h0), multiset(b), multiset(r), multiset(r0));
  }

  /** Once the pile is used up, the seats after the i-th get nothing. */
  lemma {:induction false} DealtExhausted(hs: seq<seq<Card>>, pile: seq<Card>, cpp: nat, i: nat, n: nat)
    requires i <= n <= |hs| && |pile| <= Offset(cpp, i)
    ensures DealtHands(hs, pile, cpp, n) == DealtHands(hs, pile, cpp, i)
    ensures DealtRest(pile, cpp, n) == []
    decreases n
  {
    OffsetMono(cpp, i, n);
    if n > i {
      DealtExhausted(hs, pile, cpp, i, n - 1);
      OffsetMono(cpp, i, n - 1);
      var h := DealtHands(hs, pile, cpp, n - 1);
      assert Block(pile, cpp, n - 1) == [];
      assert h[n - 1] + [] == h[n - 1];
      assert h[n - 1 := h[n - 1]] == h;
    }
  }

  /**
   * The dealing loops of _deal_cards_to_players over the players' hands:
   * seat k ends with its block of the pile added to its hand, the rest of
   * the pile is returned, and the deal fails with IndexError exactly when
   * the pile holds fewer than cpp cards per seat.
   */
  method DealFromFront(ps: seq<Player>, pile: seq<Card>, cpp: nat) returns (o: Outcome, rest: seq<Card>)
    requires DistinctPlayers(ps)
    modifies ps`hand
    ensures o == Pass <==> |ps| * cpp <= |pile|
    ensures o.Fail? ==> o.error == IndexError
    ensures HandsOf(ps) == DealtHands(old(HandsOf(ps)), pile, cpp, |ps|)
    ensures rest == DealtRest(pile, cpp, |ps|)
  {
    ghost var h0 := HandsOf(ps);
    o, rest := Pass, pile;
    var i := 0;
    while i < |ps| && o == Pass
      invariant i <= |ps| && HandsOf(ps) == DealtHands(h0, pile, cpp, i) && rest == DealtRest(pile, cpp, i)
      invariant o == Pass ==> Offset(cpp, i) <= |pile|
      invariant o.Fail? ==> o.error == IndexError && |pile| < Offset(cpp, i)
    {
      o, rest := DealSeat(ps, i, rest, cpp, h0, pile);
      i := i + 1;
    }
    DealEnd(h0, pile, cpp, i, o == Pass);
  }

  /** Where the dealing loop stops, the whole deal is decided. */
  lemma DealEnd(hs: seq<seq<Card>>, pile: seq<Card>, cpp: nat, i: nat, pass: bool)
    requires i <= |hs|
    requires pass ==> i == |hs| && Offset(cpp, i) <= |pile|
    requires !pass ==> |pile| < Offset(cpp, i)
    ensures pass <==> |hs| * cpp <= |pile|
    ensures DealtHands(hs, pile, cpp, |hs|) == DealtHands(hs, pile, cpp, i)
    ensures DealtRest(pile, cpp, |hs|) == DealtRest(pile, cpp, i)
  {
    OffsetProduct(cpp, |hs|);
    if !pass {
      OffsetMono(cpp, i, |hs|);
      DealtExhausted(hs, pile, cpp, i, |hs|);
    }
  }

  /** One pass of the outer dealing loop: seat i gets its block, no other seat changes. */
  method DealSeat(ps: seq<Player>, i: nat, rest0: seq<Card>, cpp: nat, ghost h0: seq<seq<Card>>, ghost pile: seq<Card>)
    returns (o: Outcome, rest: seq<Card>)
    requires DistinctPlayers(ps) && i < |ps| == |h0| && Offset(cpp, i) <= |pile|
    requires HandsOf(ps) == DealtHands(h0, pile, cpp, i) && rest0 == DealtRest(pile, cpp, i)
    modifies ps`hand
    ensures o == Pass <==> Offset(cpp, i + 1) <= |pile|
    ensures o.Fail? ==> o.error == IndexError
    ensures HandsOf(ps) == DealtHands(h0, pile, cpp, i + 1) && rest == DealtRest(pile, cpp, i + 1)
  {
    ghost var hs := HandsOf(ps);
    o, rest := DealTo(ps[i], rest0, cpp);
    assert rest0[..|rest0| - |rest|] == Block(pile, cpp, i);
    assert forall k :: 0 <= k < |ps| && k != i ==> ps[k] != ps[i];
    assert HandsOf(ps) == hs[i := hs[i] + Block(pile, cpp, i)];
  }

  /** The inner loop: up to `cpp` cards from the front of `pile` onto one hand. */
  method DealTo(p: Player, pile: seq<Card>, cpp: nat) returns (o: Outcome, rest: seq<Card>)
    modifies p`hand
    ensures o == Pass <==> cpp <= |pile|
    ensures o.Fail? ==> o.error == IndexError
    ensures |rest| <= |pile| && rest == pile[|pile| - |rest|..]
    ensures p.hand == old(p.hand) + pile[..|pile| - |rest|]
    ensures o == Pass ==> |rest| == |pile| - cpp
    ensures o.Fail? ==> rest == []
  {
    rest := pile;
    for j := 0 to cpp
      invariant j <= |pile| && rest == pile[j..]
      invariant p.hand == old(p.hand) + pile[..j]
    {
      if rest == [] {
        return Fail(IndexError), rest;
      }
      var c := rest[0];
      rest := rest[1..];
      p.hand := p.hand + [c];
      assert pile[..j + 1] == pile[..j] + [c];
    }
    return Pass, rest;
  }

  /** Taking one card out of one hand takes it out of the union. */
  lemma UnionRemove(hs: seq<seq<Card>>, k: nat, r: seq<Card>, c: Card)
    requires k < |hs| && multiset(r) + multiset{c} == multiset(hs[k])
    ensures Union(hs[k := r]) + multiset{c} == Union(hs)
  {
    UnionReplace(hs, k, r);
    var A := Union(hs[k := r]);
    calc {
      A + multiset{c} + multiset(r);
      A + multiset(hs[k]);
      Union(hs) + multiset(r);
    }
    Cancel(A + multiset{c}, Union(hs), multiset(r));
  }

  /**
   * The crib loop of _receive_crib_cards_from_players: each player in seat
   * order gives `share` cards, until one of them cannot (ValueError). The
   * cards given so far are returned in either case, since the source adds
   * each player's cards to the crib as soon as they are given.
   */
  method CollectCribCards(ps: seq<Player>, share: int) returns (o: Outcome, given: seq<Card>)
    requires DistinctPlayers(ps)
    modifies ps`hand
    ensures share != 1 && share != 2 ==> o == Pass && given == [] && HandsOf(ps) == old(HandsOf(ps))
    ensures (share == 1 || share == 2) ==>
      (o == Pass <==> forall k :: 0 <= k < |ps| ==> |old(HandsOf(ps))[k]| >= share)
    ensures o.Fail? ==> o.error == ValueError
    ensures o == Pass && (share == 1 || share == 2) ==>
      |given| == share * |ps| && forall k :: 0 <= k < |ps| ==> |HandsOf(ps)[k]| == |old(HandsOf(ps))[k]| - share
    ensures Union(HandsOf(ps)) + multiset(given) == old(Union(HandsOf(ps)))
  {
    o, given := Pass, [];
    ghost var h0 := HandsOf(ps);
    if share == 1 || share == 2 {
      ghost var hs;
      o, given, hs := GiveShares(ps, share, h0);
    }
  }

  /**
   * The loop of CollectCribCards for a share of one or two cards: seat by
   * seat until one fails; `h0` and `hs` are the hands before and after.
   */
  method GiveShares(ps: seq<Player>, share: int, ghost h0: seq<seq<Card>>)
    returns (o: Outcome, given: seq<Card>, ghost hs: seq<seq<Card>>)
    requires DistinctPlayers(ps) && (share == 1 || share == 2) && h0 == HandsOf(ps)
    modifies ps`hand
    ensures hs == HandsOf(ps) && |hs| == |ps|
    ensures o == Pass <==> forall k :: 0 <= k < |ps| ==> |h0[k]| >= share
    ensures o.Fail? ==> o.error == ValueError
    ensures o == Pass ==> |given| == share * |ps| && forall k :: 0 <= k < |ps| ==> |hs[k]| == |h0[k]| - share
    ensures Union(hs) + multiset(given) == Union(h0)
  {
    o, given, hs := Pass, [], h0;
    var i := 0;
    while i < |ps| && o == Pass
      invariant i <= |ps| && |given| == Offset(share, i)
      invariant hs == HandsOf(ps) && |hs| == |ps|
      invariant SharesGiven(h0, hs, i, share)
      invariant o.Fail? ==> o.error == ValueError && i < |ps| && |h0[i]| < share
      invariant Union(hs) + multiset(given) == Union(h0)
      decreases |ps| - i, o == Pass
    {
      OffsetSucc(share, i);
      ghost var prev := hs;
      o, given, hs := GiveSeat(ps, i, share, given, hs);
      if o == Pass {
        SeatGiven(h0, prev, hs, i, share);
        i := i + 1;
      }
    }
    OffsetProduct(share, |ps|);
  }

  /** Seats before `i` have each given `share` cards; the later seats still hold their hands of `h0`. */
  ghost predicate SharesGiven(h0: seq<seq<Card>>, hs: seq<seq<Card>>, i: nat, share: int) {
    && |hs| == |h0| && i <= |h0|
    && (forall k :: 0 <= k < i ==> |h0[k]| >= share && |hs[k]| == |h0[k]| - share)
    && (forall k :: i <= k < |h0| ==> hs[k] == h0[k])
  }

  /** Seat `i` gives its share after the seats before it. */
  lemma SeatGiven(h0: seq<seq<Card>>, prev: seq<seq<Card>>, hs: seq<seq<Card>>, i: nat, share: int)
    requires SharesGiven(h0, prev, i, share) && i < |h0| && |hs| == |h0|
    requires |prev[i]| >= share && |hs[i]| == |prev[i]| - share
    requires forall k :: 0 <= k < |hs| && k != i ==> hs[k] == prev[k]
    ensures SharesGiven(h0, hs, i + 1, share)
  {
  }

  /**
   * One pass of the crib loop: seat i gives `share` cards, or fails and
   * gives nothing; `hs0` and `hs` are the hands before and after.
   */
  method GiveSeat(ps: seq<Player>, i: nat, share: int, given0: seq<Card>, ghost hs0: seq<seq<Card>>)
    returns (o: Outcome, given: seq<Card>, ghost hs: seq<seq<Card>>)
    requires DistinctPlayers(ps) && i < |ps| && (share == 1 || share == 2)
    requires hs0 == HandsOf(ps)
    modifies ps`hand
    ensures hs == HandsOf(ps) && |hs| == |hs0|
    ensures o == Pass <==> |hs0[i]| >= share
    ensures o.Fail? ==> o.error == ValueError && hs == hs0 && given == given0
    ensures o == Pass ==> |given| == |given0| + share && |hs[i]| == |hs0[i]| - share
    ensures forall k :: 0 <= k < |hs| && k != i ==> hs[k] == hs0[k]
    ensures Union(hs) + multiset(given) == Union(hs0) + multiset(given0)
  {
    var r := GiveCardsToCrib(ps[i], share);
    assert forall k :: 0 <= k < |ps| && k != i ==> ps[k] != ps[i];
    hs := HandsOf(ps);
    if r.Err? {
      assert hs == hs0;
      return Fail(r.error), given0, hs;
    }
    assert hs == hs0[i := ps[i].hand];
    GiveStep(hs0, i, ps[i].hand, given0, r.value, Union(hs0) + multiset(given0));
    return Pass, given0 + r.value, hs;
  }

  /** One player's gift to the crib moves those cards from the hands to the crib. */
  lemma GiveStep(hs: seq<seq<Card>>, i: nat, h: seq<Card>, given: seq<Card>, gift: seq<Card>, total: multiset<Card>)
    requires i < |hs| && multiset(gift) + multiset(h) == multiset(hs[i])
    requires Union(hs) + multiset(given) == total
    ensures Union(hs[i := h]) + multiset(given + gift) == total
  {
    UnionReplace(hs, i, h);
    var A := Union(hs[i := h]);
    calc {
      A + multiset(given + gift) + multiset(h);
      A + multiset(hs[i]) + multiset(given);
      Union(hs) + multiset(h) + multiset(given);
      total + multiset(h);
    }
    Cancel(A + multiset(given + gift), total, multiset(h));
  }

  // ---------------------------------------------------------------------
  // The pegging phase
  // ---------------------------------------------------------------------

  /** The cards a player pegs from: the hand itself in the older engine, the pegging copy in the newer. */
  function PegCards(p: Player, fromHand: bool): seq<Card>
    reads p
  {
    if fromHand then p.hand else p.peggingHand
  }

  /** The cards the players peg from, seat by seat. */
  ghost function PegPilesOf(ps: seq<Player>, fromHand: bool): (hs: seq<seq<Card>>)
    reads ps
    ensures |hs| == |ps| && forall i :: 0 <= i < |ps| ==> hs[i] == PegCards(ps[i], fromHand)
  {
    seq(|ps|, i reads ps requires 0 <= i < |ps| => PegCards(ps[i], fromHand))
  }

  /** The outer test of _play_pegging_phase: somebody still has cards to peg. */
  predicate AnyCards(ps: seq<Player>, fromHand: bool)
    reads ps
  {
    exists i :: 0 <= i < |ps| && PegCards(ps[i], fromHand) != []
  }

  /** The inner test of _play_pegging_phase: somebody can peg on the current count. */
  predicate AnyCanPeg(ps: seq<Player>, pegged: seq<Card>, fromHand: bool)
    reads ps
  {
    exists i :: 0 <= i < |ps| && CanPegWith(PegCards(ps[i], fromHand), pegged)
  }

  /** On a fresh count anyone who holds a card can play it. */
  lemma HasCardsCanPeg(ps: seq<Player>, fromHand: bool)
    requires AnyCards(ps, fromHand)
    ensures AnyCanPeg(ps, [], fromHand)
  {
    var i :| 0 <= i < |ps| && PegCards(ps[i], fromHand) != [];
    var cards := PegCards(ps[i], fromHand);
    assert PeggingTotal([]) + CardValue(cards[0]) <= 31;
  }

  /**
   * A run of consecutive seats of the order generator that is at least as
   * long as the table passes every seat: the items c, c - 1, ..., c - (n - 1)
   * reach any seat q.
   */
  lemma WindowCovers(d: nat, c: nat, n: nat, q: nat) returns (j: nat)
    requires d < n && q < n && c + 1 >= n
    ensures j < n && j <= c && Seat(d, c - j, n) == q
  {
    j := (d + c - q) % n;
    ModUnique(d + c - j, n, (d + c - q) / n, q);
  }

  /**
   * One turn of the pegging loop: the player plays the first card of least
   * value from the cards they peg from. The other pile is left alone.
   */
  method PegTurn(p: Player, pegged: seq<Card>, fromHand: bool) returns (c: Card)
    requires CanPegWith(PegCards(p, fromHand), pegged)
    modifies p`hand, p`peggingHand
    ensures old(PegCards(p, fromHand)) != [] && PlaysFirstMinimum(old(PegCards(p, fromHand)), c, PegCards(p, fromHand))
    ensures multiset(PegCards(p, fromHand)) + multiset{c} == old(multiset(PegCards(p, fromHand)))
    ensures PeggingTotal(pegged + [c]) <= 31
    ensures PegCards(p, !fromHand) == old(PegCards(p, !fromHand)) && p.score == old(p.score)
  {
    var r;
    if fromHand {
      r := LegacyPlayPeggingCard(p, pegged);
    } else {
      r := PlayPeggingCard(p, pegged);
    }
    c := r.value;
    PlayRemovesOne(old(PegCards(p, fromHand)), c, PegCards(p, fromHand));
  }

  /** Some seat still has cards. */
  ghost predicate AnyNonEmpty(hs: seq<seq<Card>>) {
    exists i :: 0 <= i < |hs| && hs[i] != []
  }

  /** Some seat can peg on the count. */
  ghost predicate AnyFits(hs: seq<seq<Card>>, pegged: seq<Card>) {
    exists i :: 0 <= i < |hs| && CanPegWith(hs[i], pegged)
  }

  /** The piles the players peg from are `hs`. */
  ghost predicate PilesAre(ps: seq<Player>, fromHand: bool, hs: seq<seq<Card>>)
    reads ps
  {
    |hs| == |ps| && forall i :: 0 <= i < |ps| ==> PegCards(ps[i], fromHand) == hs[i]
  }

  /** The two loop tests of the pegging phase, read off the piles. */
  lemma PilesTests(ps: seq<Player>, fromHand: bool, hs: seq<seq<Card>>, pegged: seq<Card>)
    requires PilesAre(ps, fromHand, hs)
    ensures AnyCards(ps, fromHand) <==> AnyNonEmpty(hs)
    ensures AnyCanPeg(ps, pegged, fromHand) <==> AnyFits(hs, pegged)
  {
    if AnyNonEmpty(hs) {
      var i :| 0 <= i < |hs| && hs[i] != [];
      assert PegCards(ps[i], fromHand) != [];
    }
    if AnyFits(hs, pegged) {
      var i :| 0 <= i < |hs| && CanPegWith(hs[i], pegged);
      assert CanPegWith(PegCards(ps[i], fromHand), pegged);
    }
  }

  /** On a fresh count anyone who holds a card can play it. */
  lemma NonEmptyFits(hs: seq<seq<Card>>)
    requires AnyNonEmpty(hs)
    ensures AnyFits(hs, [])
  {
    var i :| 0 <= i < |hs| && hs[i] != [];
    assert PeggingTotal([]) + CardValue(hs[i][0]) <= 31;
  }

  /**
   * If the last `skips` players yielded could not peg on the current count
   * and at least one player can, then fewer players than there are seats
   * were skipped: a window as long as the table covers every seat.
   */
  lemma SkipsBelowSeats(hs: seq<seq<Card>>, pegged: seq<Card>, d: nat, c: nat, skips: nat)
    requires d < |hs| && skips <= c
    requires forall t :: c - skips < t <= c ==> !CanPegWith(hs[Seat(d, t, |hs|)], pegged)
    requires AnyFits(hs, pegged)
    ensures skips < |hs|
  {
    if skips >= |hs| {
      var q :| 0 <= q < |hs| && CanPegWith(hs[q], pegged);
      var j := WindowCovers(d, c, |hs|, q);
      assert false;
    }
  }

  /** Taking one card from a pile and adding it to the pegged cards keeps the cards together. */
  lemma PegStep(hs: seq<seq<Card>>, k: nat, r: seq<Card>, c: Card, pegged: seq<Card>, total: multiset<Card>)
    requires k < |hs| && multiset(r) + multiset{c} == multiset(hs[k])
    requires Union(hs) + multiset(pegged) == total
    ensures Union(hs[k := r]) + multiset(pegged + [c]) == total
    ensures |Union(hs[k := r])| < |Union(hs)|
  {
    UnionRemove(hs, k, r, c);
    Regroup(Union(hs), Union(hs[k := r]), multiset{c}, multiset(pegged), multiset(pegged + [c]));
  }

  /** The players' scores are `s`. */
  ghost predicate HasScores(ps: seq<Player>, s: seq<int>)
    reads ps
  {
    |s| == |ps| && forall i :: 0 <= i < |ps| ==> ps[i].score == s[i]
  }

  lemma ScoresAre(ps: seq<Player>, s: seq<int>)
    requires HasScores(ps, s)
    ensures Scores(ps) == s
  {
  }

  /**
   * The last `skips` turns up to turn `c` of the order generator went to
   * players who could not peg on the count.
   */
  ghost predicate Skipped(hs: seq<seq<Card>>, pegged: seq<Card>, d: nat, c: nat, skips: nat) {
    |hs| >= 1 && skips <= c && forall t :: c - skips < t <= c ==> !CanPegWith(hs[Seat(d, t, |hs|)], pegged)
  }

  /** One more player who could not peg extends the window of skipped turns. */
  lemma SkippedStep(hs: seq<seq<Card>>, pegged: seq<Card>, d: nat, c: nat, skips: nat)
    requires Skipped(hs, pegged, d, c, skips)
    requires !CanPegWith(hs[Seat(d, c + 1, |hs|)], pegged)
    ensures Skipped(hs, pegged, d, c + 1, skips + 1)
  {
  }

  /**
   * What holds between the turns of one street: the piles are `hs` and
   * together with the count's cards make up the street's starting piles
   * `hs0`; the count is at most 31; the last `skips` turns were skipped;
   * and nothing has been played before the first turn. The other pile and
   * the scores stay as they were.
   */
  ghost predicate Street(ps: seq<Player>, gen: OrderGen, fromHand: bool, hs0: seq<seq<Card>>,
                         other: seq<seq<Card>>, scores: seq<int>, c0: nat, skips: nat,
                         hs: seq<seq<Card>>, pegged: seq<Card>)
    reads ps, gen
  {
    && DistinctPlayers(ps) && gen.players == ps && gen.dealerIndex < |ps|
    && gen.count >= c0 && skips <= gen.count - c0
    && PilesAre(ps, fromHand, hs)
    && Skipped(hs, pegged, gen.dealerIndex, gen.count, skips)
    && (pegged == [] ==> hs == hs0)
    && (pegged != [] ==> gen.count > c0)
    && PeggingTotal(pegged) <= 31
    && Union(hs) + multiset(pegged) == Union(hs0)
    && PilesAre(ps, !fromHand, other) && HasScores(ps, scores)
  }

  /** _find_winner read against the scores the players are known to hold. */
  method HasWinner(ps: seq<Player>, w: int, ghost scores: seq<int>) returns (won: bool)
    requires HasScores(ps, scores)
    ensures won <==> FirstAtLeast(scores, w).Some?
  {
    ScoresAre(ps, scores);
    var winner := FindWinner(ps, w);
    won := winner.Some?;
  }

  /** Distinct players: every seat but k holds somebody other than the player at k. */
  lemma OthersDiffer(ps: seq<Player>, k: nat)
    requires DistinctPlayers(ps) && k < |ps|
    ensures forall i :: 0 <= i < |ps| && i != k ==> ps[i] != ps[k]
  {
    forall i | 0 <= i < |ps| && i != k
      ensures ps[i] != ps[k]
    {
      if i < k {
        assert ps[i] != ps[k];
      } else {
        assert ps[k] != ps[i];
      }
    }
  }

  /**
   * The player at seat k, who can peg, plays their first card of least
   * value `c`, leaving `r` in their pile; every other pile, the other pile
   * of every player and every score stay as they were.
   */
  method PegSeat(ps: seq<Player>, p: Player, ghost k: nat, fromHand: bool, pegged0: seq<Card>, ghost hs0: seq<seq<Card>>,
                 ghost other: seq<seq<Card>>, ghost scores: seq<int>)
    returns (c: Card, ghost r: seq<Card>)
    requires DistinctPlayers(ps) && k < |ps| && ps[k] == p
    requires PilesAre(ps, fromHand, hs0) && PilesAre(ps, !fromHand, other) && HasScores(ps, scores)
    requires CanPegWith(hs0[k], pegged0)
    modifies p`hand, p`peggingHand
    ensures PilesAre(ps, !fromHand, other) && HasScores(ps, scores) && PilesAre(ps, fromHand, hs0[k := r])
    ensures multiset(r) + multiset{c} == multiset(hs0[k]) && PeggingTotal(pegged0 + [c]) <= 31
  {
    OthersDiffer(ps, k);
    c := PegOne(p, pegged0, fromHand);
    r := PegCards(p, fromHand);
  }

  /** PegTurn, seen only as a card moved out of the player's pile, the count kept to 31. */
  method PegOne(p: Player, pegged: seq<Card>, fromHand: bool) returns (c: Card)
    requires CanPegWith(PegCards(p, fromHand), pegged)
    modifies p`hand, p`peggingHand
    ensures multiset(PegCards(p, fromHand)) + multiset{c} == old(multiset(PegCards(p, fromHand)))
    ensures PeggingTotal(pegged + [c]) <= 31
    ensures PegCards(p, !fromHand) == old(PegCards(p, !fromHand))
  {
    c := PegTurn(p, pegged, fromHand);
  }

  /**
   * One turn: the next player in turn order, at seat k of the result,
   * plays their first card of least value if they can peg. The piles are
   * kept in step with the players.
   */
  method PegNext(ps: seq<Player>, gen: OrderGen, fromHand: bool, pegged0: seq<Card>, ghost hs0: seq<seq<Card>>,
                 ghost other: seq<seq<Card>>, ghost scores: seq<int>)
    returns (pegged: seq<Card>, ghost hs: seq<seq<Card>>, ghost k: nat, played: bool)
    requires DistinctPlayers(ps) && gen.players == ps && gen.dealerIndex < |ps|
    requires PilesAre(ps, fromHand, hs0) && PilesAre(ps, !fromHand, other) && HasScores(ps, scores)
    modifies gen, ps`hand, ps`peggingHand
    ensures PilesAre(ps, !fromHand, other) && HasScores(ps, scores)
    ensures gen.count == old(gen.count) + 1 && k == Seat(gen.dealerIndex, gen.count, |ps|)
    ensures played <==> CanPegWith(hs0[k], pegged0)
    ensures PilesAre(ps, fromHand, hs)
    ensures !played ==> hs == hs0 && pegged == pegged0
    ensures played ==> pegged != [] && PeggingTotal(pegged) <= 31 && |Union(hs)| < |Union(hs0)|
    ensures Union(hs) + multiset(pegged) == Union(hs0) + multiset(pegged0)
  {
    var p := gen.Next();
    k := Seat(gen.dealerIndex, gen.count, |ps|);
    hs, pegged := hs0, pegged0;
    played := CanPegWith(PegCards(p, fromHand), pegged);
    if played {
      var c;
      ghost var r;
      c, r := PegSeat(ps, p, k, fromHand, pegged0, hs0, other, scores);
      hs := hs0[k := r];
      PegStep(hs0, k, r, c, pegged0, Union(hs0) + multiset(pegged0));
      pegged := pegged0 + [c];
    }
  }

  /**
   * One pass of the inner loop of _play_pegging_phase: the next player
   * pegs if they can, and then the phase stops if somebody has `w`
   * points. Either a card was played or one more turn was skipped.
   */
  method StreetTurn(ps: seq<Player>, gen: OrderGen, w: int, fromHand: bool, ghost hs0: seq<seq<Card>>,
                    ghost other: seq<seq<Card>>, ghost scores: seq<int>, ghost c0: nat, ghost skips: nat,
                    ghost hs: seq<seq<Card>>, pegged: seq<Card>)
    returns (won: bool, pegged': seq<Card>, ghost hs': seq<seq<Card>>, ghost skips': nat)
    requires Street(ps, gen, fromHand, hs0, other, scores, c0, skips, hs, pegged)
    requires AnyFits(hs, pegged)
    modifies gen, ps`hand, ps`peggingHand
    ensures won <==> FirstAtLeast(scores, w).Some?
    ensures Street(ps, gen, fromHand, hs0, other, scores, c0, skips', hs', pegged')
    ensures |Union(hs')| < |Union(hs)| || (hs' == hs && skips < skips' <= |ps|)
  {
    SkipsBelowSeats(hs, pegged, gen.dealerIndex, gen.count, skips);
    var played;
    ghost var k;
    pegged', hs', k, played := PegNext(ps, gen, fromHand, pegged, hs, other, scores);
    if played {
      skips' := 0;
    } else {
      SkippedStep(hs, pegged, gen.dealerIndex, gen.count - 1, skips);
      skips' := skips + 1;
    }
    won := HasWinner(ps, w, scores);
  }

  /**
   * The inner loop of _play_pegging_phase, one street: while somebody can
   * peg on the count, the next player in turn order plays their first card
   * of least value if they can, and after every turn the phase ends at
   * once if somebody has reached `w` points. Since nobody scores while
   * pegging, that happens exactly when somebody had `w` points already.
   */
  method PegStreet(ps: seq<Player>, gen: OrderGen, w: int, fromHand: bool, ghost hs0: seq<seq<Card>>,
                   ghost other: seq<seq<Card>>, ghost scores: seq<int>)
    returns (won: bool, pegged: seq<Card>, ghost hs: seq<seq<Card>>)
    requires DistinctPlayers(ps) && gen.players == ps && gen.dealerIndex < |ps|
    requires PilesAre(ps, fromHand, hs0) && AnyNonEmpty(hs0)
    requires PilesAre(ps, !fromHand, other) && HasScores(ps, scores)
    modifies gen, ps`hand, ps`peggingHand
    ensures PilesAre(ps, !fromHand, other) && HasScores(ps, scores)
    ensures won <==> FirstAtLeast(scores, w).Some?
    ensures PilesAre(ps, fromHand, hs)
    ensures !won ==> pegged != [] && !AnyFits(hs, pegged)
    ensures PeggingTotal(pegged) <= 31
    ensures Union(hs) + multiset(pegged) == Union(hs0)
    ensures gen.count > old(gen.count)
  {
    ghost var c0 := gen.count;
    ghost var skips: nat := 0;
    pegged, hs := [], hs0;
    NonEmptyFits(hs0);
    PilesTests(ps, fromHand, hs, pegged);
    while AnyCanPeg(ps, pegged, fromHand)
      invariant Street(ps, gen, fromHand, hs0, other, scores, c0, skips, hs, pegged)
      invariant gen.count > c0 ==> FirstAtLeast(scores, w).None?
      decreases |Union(hs)|, |ps| - skips
    {
      PilesTests(ps, fromHand, hs, pegged);
      won, pegged, hs, skips := StreetTurn(ps, gen, w, fromHand, hs0, other, scores, c0, skips, hs, pegged);
      if won {
        return;
      }
    }
    PilesTests(ps, fromHand, hs, pegged);
    won := false;
  }

  /** The copying loop of the newer engine: each player's pegging hand becomes a copy of the hand. */
  method CopyPeggingHands(ps: seq<Player>)
    modifies ps`peggingHand
    ensures forall i :: 0 <= i < |ps| ==> ps[i].peggingHand == ps[i].hand
  {
    for i := 0 to |ps|
      invariant forall k :: 0 <= k < i ==> ps[k].peggingHand == ps[k].hand
    {
      ps[i].peggingHand := ps[i].hand;
    }
  }

  /** The piles the players peg from, read back off the players. */
  lemma PilesOf(ps: seq<Player>, fromHand: bool, hs: seq<seq<Card>>)
    requires PilesAre(ps, fromHand, hs)
    ensures PegPilesOf(ps, fromHand) == hs
  {
  }

  /** The hands, read back off the players. */
  lemma HandsAre(ps: seq<Player>, hs: seq<seq<Card>>)
    requires PilesAre(ps, true, hs)
    ensures HandsOf(ps) == hs
  {
  }

  /**
   * What holds between the streets of the pegging phase: the players peg
   * from `piles`, their other pile is `other` and their scores are `scores`.
   */
  ghost predicate Seated(ps: seq<Player>, fromHand: bool, piles: seq<seq<Card>>, other: seq<seq<Card>>, scores: seq<int>)
    reads ps
  {
    PilesAre(ps, fromHand, piles) && PilesAre(ps, !fromHand, other) && HasScores(ps, scores)
  }

  /** The cards of the streets, the latest street first, as the pegging phase accumulates them. */
  ghost function StreetCards(streets: seq<seq<Card>>): seq<Card> {
    if streets == [] then [] else streets[|streets| - 1] + StreetCards(streets[..|streets| - 1])
  }

  /** The cards pegged, `played`, are those of the streets; every street holds a card and none went over 31. */
  ghost predicate StreetsMake(streets: seq<seq<Card>>, played: seq<Card>) {
    && played == StreetCards(streets)
    && (forall i :: 0 <= i < |streets| ==> streets[i] != [] && PeggingTotal(streets[i]) <= 31)
  }

  /** The streets after one more street: an empty street is not recorded. */
  ghost function AddStreet(streets: seq<seq<Card>>, street: seq<Card>): seq<seq<Card>> {
    if street == [] then streets else streets + [street]
  }

  /** A street of at most 31 keeps the streets making up what was played. */
  lemma AddStreetMakes(streets: seq<seq<Card>>, played: seq<Card>, street: seq<Card>)
    requires StreetsMake(streets, played) && PeggingTotal(street) <= 31
    ensures StreetsMake(AddStreet(streets, street), street + played)
  {
    if street != [] {
      var ss := streets + [street];
      assert ss[..|streets|] == streets;
    }
  }

  /**
   * What holds between the streets of the pegging phase: the players peg
   * from `piles`, which with the cards pegged so far make up the starting
   * `hands`; the cards pegged are those of the streets, every street holds
   * a card and no street went over 31.
   */
  ghost predicate Phase(ps: seq<Player>, gen: OrderGen, fromHand: bool, w: int, hands: seq<seq<Card>>,
                        other: seq<seq<Card>>, scores: seq<int>,
                        piles: seq<seq<Card>>, streets: seq<seq<Card>>, played: seq<Card>)
    reads ps, gen
  {
    && DistinctPlayers(ps) && gen.players == ps && gen.dealerIndex < |ps|
    && Seated(ps, fromHand, piles, other, scores)
    && Union(piles) + multiset(played) == Union(hands)
    && StreetsMake(streets, played)
  }

  /**
   * One pass of the outer loop of _play_pegging_phase: a fresh count and
   * one street. Either somebody had already won, or cards were pegged.
   */
  method PhaseStreet(ps: seq<Player>, gen: OrderGen, w: int, fromHand: bool, ghost hands: seq<seq<Card>>,
                     ghost other: seq<seq<Card>>, ghost scores: seq<int>, ghost piles: seq<seq<Card>>,
                     ghost streets: seq<seq<Card>>, ghost played: seq<Card>)
    returns (won: bool, ghost piles': seq<seq<Card>>, ghost streets': seq<seq<Card>>, ghost played': seq<Card>)
    requires Phase(ps, gen, fromHand, w, hands, other, scores, piles, streets, played) && AnyNonEmpty(piles)
    modifies gen, ps`hand, ps`peggingHand
    ensures Phase(ps, gen, fromHand, w, hands, other, scores, piles', streets', played')
    ensures won <==> FirstAtLeast(scores, w).Some?
    ensures !won ==> |Union(piles')| < |Union(piles)|
  {
    var street;
    won, street, piles' := PegStreet(ps, gen, w, fromHand, piles, other, scores);
    Regroup(Union(piles), Union(piles'), multiset(street), multiset(played), multiset(street + played));
    AddStreetMakes(streets, played, street);
    streets', played' := AddStreet(streets, street), street + played;
  }

  /**
   * The outer loop of _play_pegging_phase: streets are pegged while anyone
   * has cards. It stops with true exactly when somebody had already won
   * and there was a card to peg, and otherwise with every pile empty.
   */
  method PegStreets(ps: seq<Player>, gen: OrderGen, w: int, fromHand: bool, ghost hands: seq<seq<Card>>,
                    ghost other: seq<seq<Card>>, ghost scores: seq<int>)
    returns (won: bool, ghost piles: seq<seq<Card>>, ghost streets: seq<seq<Card>>, ghost played: seq<Card>)
    requires Phase(ps, gen, fromHand, w, hands, other, scores, hands, [], [])
    modifies gen, ps`hand, ps`peggingHand
    ensures Phase(ps, gen, fromHand, w, hands, other, scores, piles, streets, played)
    ensures won <==> AnyNonEmpty(hands) && FirstAtLeast(scores, w).Some?
    ensures !won ==> forall i :: 0 <= i < |piles| ==> piles[i] == []
  {
    won, piles, streets, played := false, hands, [], [];
    PilesTests(ps, fromHand, piles, []);
    while !won && AnyCards(ps, fromHand)
      invariant Phase(ps, gen, fromHand, w, hands, other, scores, piles, streets, played)
      invariant won ==> FirstAtLeast(scores, w).Some? && AnyNonEmpty(hands)
      invariant !won && FirstAtLeast(scores, w).Some? ==> piles == hands
      decreases !won, |Union(piles)|
    {
      PilesTests(ps, fromHand, piles, []);
      won, piles, streets, played := PhaseStreet(ps, gen, w, fromHand, hands, other, scores, piles, streets, played);
    }
    PilesTests(ps, fromHand, piles, []);
  }

  /**
   * Before the first street: the newer engine copies each hand to the
   * pegging hand. The players then peg from their hands (either way), and
   * the returned ghosts record the piles, the other piles and the scores.
   */
  method StartPegging(ps: seq<Player>, fromHand: bool)
    returns (ghost hands: seq<seq<Card>>, ghost other: seq<seq<Card>>, ghost scores: seq<int>)
    modifies ps`peggingHand
    ensures hands == old(HandsOf(ps)) && scores == old(Scores(ps))
    ensures other == if fromHand then old(PegPilesOf(ps, false)) else hands
    ensures Seated(ps, fromHand, hands, other, scores)
    ensures fromHand ==> PegPilesOf(ps, false) == old(PegPilesOf(ps, false))
    ensures AnyCards(ps, fromHand) == old(AnyCards(ps, true)) == AnyNonEmpty(hands)
  {
    hands, scores := HandsOf(ps), Scores(ps);
    other := if fromHand then PegPilesOf(ps, false) else hands;
    if !fromHand {
      CopyPeggingHands(ps);
    }
    PilesTests(ps, fromHand, hands, []);
    PilesTests(ps, true, hands, []);
  }

  /**
   * _play_pegging_phase: ValueError when nobody is dealer (the order
   * generator looks the dealer up first); otherwise PegFrom.
   */
  method PegPhase(group: PlayerGroup, w: int, fromHand: bool)
    returns (r: Result<bool>, ghost piles: seq<seq<Card>>, ghost streets: seq<seq<Card>>, ghost played: seq<Card>)
    requires group.Valid()
    modifies group.players`hand, group.players`peggingHand
    ensures r.Err? <==> FirstDealer(old(group.Flags())).None?
    ensures r.Err? ==> r.error == ValueError && PegPilesOf(group.players, false) == old(PegPilesOf(group.players, false))
    ensures r.Ok? ==> (r.value <==> old(AnyCards(group.players, true)) && FirstAtLeast(old(Scores(group.players)), w).Some?)
    ensures r.Ok? ==> PegPilesOf(group.players, fromHand) == piles
    ensures r.Ok? ==> Union(piles) + multiset(played) == Union(old(HandsOf(group.players)))
    ensures r == Ok(false) ==> forall i :: 0 <= i < |piles| ==> piles[i] == []
    ensures played == StreetCards(streets)
    ensures forall i :: 0 <= i < |streets| ==> streets[i] != [] && PeggingTotal(streets[i]) <= 31
    ensures Scores(group.players) == old(Scores(group.players))
    ensures !fromHand ==> HandsOf(group.players) == old(HandsOf(group.players))
    ensures fromHand ==> PegPilesOf(group.players, false) == old(PegPilesOf(group.players, false))
  {
    var ps := group.players;
    ghost var any0, scores0, hands0, others0 := AnyCards(ps, true), Scores(ps), HandsOf(ps), PegPilesOf(ps, false);
    var g := group.OrderGenerator();
    assert AnyCards(ps, true) == any0 && Scores(ps) == scores0 && HandsOf(ps) == hands0 && PegPilesOf(ps, false) == others0;
    if g.Err? {
      return Err(ValueError), hands0, [], [];
    }
    var won;
    won, piles, streets, played := PegFrom(group.players, g.value, w, fromHand);
    r := Ok(won);
  }

  /**
   * The body of _play_pegging_phase once the order generator exists: the
   * newer engine copies every hand to a pegging hand; then streets are
   * pegged while anyone has cards. The result is true exactly when
   * somebody had already reached `w` points and there was a card to peg,
   * and false once every pile is empty. The cards pegged, `played`, are
   * exactly the cards taken from the piles, which end as `piles`, and no
   * street goes over 31. Scores, and the pile not pegged from, are left
   * alone.
   */
  method PegFrom(ps: seq<Player>, gen: OrderGen, w: int, fromHand: bool)
    returns (won: bool, ghost piles: seq<seq<Card>>, ghost streets: seq<seq<Card>>, ghost played: seq<Card>)
    requires DistinctPlayers(ps) && gen.players == ps && gen.dealerIndex < |ps|
    modifies gen, ps`hand, ps`peggingHand
    ensures won <==> old(AnyCards(ps, true)) && FirstAtLeast(old(Scores(ps)), w).Some?
    ensures PegPilesOf(ps, fromHand) == piles
    ensures Union(piles) + multiset(played) == Union(old(HandsOf(ps)))
    ensures !won ==> forall i :: 0 <= i < |piles| ==> piles[i] == []
    ensures played == StreetCards(streets)
    ensures forall i :: 0 <= i < |streets| ==> streets[i] != [] && PeggingTotal(streets[i]) <= 31
    ensures Scores(ps) == old(Scores(ps))
    ensures !fromHand ==> HandsOf(ps) == old(HandsOf(ps))
    ensures fromHand ==> PegPilesOf(ps, false) == old(PegPilesOf(ps, false))
  {
    ghost var hands, other, scores := StartPegging(ps, fromHand);
    won, piles, streets, played := PegStreets(ps, gen, w, fromHand, hands, other, scores);
    SeatedReadBack(ps, fromHand, piles, other, scores);
  }

  /** The piles and scores the players are seated with, read back off them. */
  lemma SeatedReadBack(ps: seq<Player>, fromHand: bool, piles: seq<seq<Card>>, other: seq<seq<Card>>, scores: seq<int>)
    requires Seated(ps, fromHand, piles, other, scores)
    ensures PegPilesOf(ps, fromHand) == piles && PegPilesOf(ps, !fromHand) == other && Scores(ps) == scores
    ensures HandsOf(ps) == PegPilesOf(ps, true)
  {
    PilesOf(ps, fromHand, piles);
    PilesOf(ps, !fromHand, other);
    ScoresAre(ps, scores);
  }
}
