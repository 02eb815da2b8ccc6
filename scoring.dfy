/**
 * Hand scoring in cribbage (_score_hand, identical in pycards/games/cribbage.py
 * and pycards/games/cribbage/cribbage.py): over the hand plus the turn-up
 * card it counts fifteens, pairs, flushes, runs and "his nobs".
 */
module Scoring {
  import opened Cards
  import opened CribbageValues
  import opened CardPiles

  // ---------------------------------------------------------------------
  // itertools.combinations
  // ---------------------------------------------------------------------

  /**
   * itertools.combinations(s, k): the k-element selections of positions of
   * `s`, in lexicographic order of the positions.
   */
  function Combinations(s: seq<Card>, k: nat): seq<seq<Card>>
    decreases |s|
  {
    if k == 0 then [[]]
    else if s == [] then []
    else PrependAll(s[0], Combinations(s[1..], k - 1)) + Combinations(s[1..], k)
  }

  /** The binomial coefficient, by Pascal's rule. */
  function Choose(n: nat, k: nat): nat {
    if k == 0 then 1 else if n == 0 then 0 else Choose(n - 1, k - 1) + Choose(n - 1, k)
  }

  /** There are n-choose-k combinations. */
  lemma {:induction false} CombinationsCount(s: seq<Card>, k: nat)
    decreases |s|
    ensures |Combinations(s, k)| == Choose(|s|, k)
  {
    if k > 0 && s != [] {
      CombinationsCount(s[1..], k - 1);
      CombinationsCount(s[1..], k);
    }
  }

  /** `p` is `s` with some of its elements left out, order kept. */
  ghost predicate IsSubseq(p: seq<Card>, s: seq<Card>)
    decreases |s|
  {
    if p == [] then true
    else if s == [] then false
    else (p[0] == s[0] && IsSubseq(p[1..], s[1..])) || IsSubseq(p, s[1..])
  }

  lemma PrependAllMember(a: Card, ps: seq<seq<Card>>, p: seq<Card>)
    ensures p in PrependAll(a, ps) <==> p != [] && p[0] == a && p[1..] in ps
  {
    if p in PrependAll(a, ps) {
      var i :| 0 <= i < |ps| && PrependAll(a, ps)[i] == p;
      assert p[1..] == ps[i];
    }
    if p != [] && p[0] == a && p[1..] in ps {
      var i :| 0 <= i < |ps| && ps[i] == p[1..];
      assert PrependAll(a, ps)[i] == p;
    }
  }

  lemma PrependAllAppend(a: Card, x: seq<seq<Card>>, y: seq<seq<Card>>)
    ensures PrependAll(a, x + y) == PrependAll(a, x) + PrependAll(a, y)
  {
    var l, r := PrependAll(a, x + y), PrependAll(a, x) + PrependAll(a, y);
    assert |l| == |r|;
    forall i | 0 <= i < |l|
      ensures l[i] == r[i]
    {
      if i < |x| {
        assert (x + y)[i] == x[i];
      } else {
        assert (x + y)[i] == y[i - |x|];
      }
    }
  }

  /** A tuple is among the combinations exactly when it is a k-long subsequence. */
  lemma {:induction false} CombinationsMember(s: seq<Card>, k: nat, p: seq<Card>)
    decreases |s|
    ensures p in Combinations(s, k) <==> |p| == k && IsSubseq(p, s)
  {
    if k > 0 && s != [] {
      var with, without := PrependAll(s[0], Combinations(s[1..], k - 1)), Combinations(s[1..], k);
      assert Combinations(s, k) == with + without;
      PrependAllMember(s[0], Combinations(s[1..], k - 1), p);
      CombinationsMember(s[1..], k, p);
      if p != [] {
        CombinationsMember(s[1..], k - 1, p[1..]);
        assert IsSubseq(p, s) == ((p[0] == s[0] && IsSubseq(p[1..], s[1..])) || IsSubseq(p, s[1..]));
      }
    }
  }

  /** Every combination has exactly k cards. */
  lemma CombinationsLength(s: seq<Card>, k: nat)
    ensures forall p :: p in Combinations(s, k) ==> |p| == k
  {
    forall p | p in Combinations(s, k)
      ensures |p| == k
    {
      CombinationsMember(s, k, p);
    }
  }

  // ---------------------------------------------------------------------
  // Fifteens
  // ---------------------------------------------------------------------

  /** How many of the tuples have card values summing to `t`. */
  function SumCount(cs: seq<seq<Card>>, t: int): nat {
    if cs == [] then 0
    else SumCount(cs[..|cs| - 1], t) + (if PeggingTotal(cs[|cs| - 1]) == t then 1 else 0)
  }

  lemma {:induction false} SumCountAppend(a: seq<seq<Card>>, b: seq<seq<Card>>, t: int)
    decreases |b|
    ensures SumCount(a + b, t) == SumCount(a, t) + SumCount(b, t)
  {
    if b == [] {
      assert a + b == a;
    } else {
      assert (a + b)[..|a + b| - 1] == a + b[..|b| - 1];
      assert (a + b)[|a + b| - 1] == b[|b| - 1];
      SumCountAppend(a, b[..|b| - 1], t);
    }
  }

  /** Putting a card in front of every tuple shifts each sum by its value. */
  lemma {:induction false} SumCountPrepend(c: Card, ps: seq<seq<Card>>, t: int)
    decreases |ps|
    ensures SumCount(PrependAll(c, ps), t) == SumCount(ps, t - CardValue(c))
  {
    if ps != [] {
      var init := ps[..|ps| - 1];
      assert PrependAll(c, ps)[..|ps| - 1] == PrependAll(c, init);
      var last := ps[|ps| - 1];
      assert ([c] + last)[1..] == last;
      SumCountPrepend(c, init, t);
    }
  }

  /**
   * The number of ways to choose k positions of `s` whose card values sum
   * to t, counted directly: either the first card is chosen or it is not.
   */
  function Selections(s: seq<Card>, k: nat, t: int): nat
    decreases |s|
  {
    if k == 0 then (if t == 0 then 1 else 0)
    else if s == [] then 0
    else Selections(s[1..], k - 1, t - CardValue(s[0])) + Selections(s[1..], k, t)
  }

  /** Counting the combinations that sum to t agrees with the direct count. */
  lemma {:induction false} SumCountSelections(s: seq<Card>, k: nat, t: int)
    decreases |s|
    ensures SumCount(Combinations(s, k), t) == Selections(s, k, t)
  {
    if k == 0 {
      assert SumCount([[]], t) == SumCount([], t) + (if PeggingTotal([]) == t then 1 else 0);
    } else if s != [] {
      var with := PrependAll(s[0], Combinations(s[1..], k - 1));
      SumCountAppend(with, Combinations(s[1..], k), t);
      SumCountPrepend(s[0], Combinations(s[1..], k - 1), t);
      SumCountSelections(s[1..], k - 1, t - CardValue(s[0]));
      SumCountSelections(s[1..], k, t);
    }
  }

  /** The fifteens among the tuples of sizes 2 .. n - 1. */
  function FifteensBelow(eh: seq<Card>, n: nat): nat {
    if n <= 2 then 0 else FifteensBelow(eh, n - 1) + SumCount(Combinations(eh, n - 1), 15)
  }

  /** Two points for each selection of 2 to 5 cards worth fifteen. */
  function FifteenPoints(eh: seq<Card>): nat {
    2 * FifteensBelow(eh, 6)
  }

  /** The fifteen points are twice the number of 2- to 5-card selections summing to 15. */
  lemma FifteenPointsSpec(eh: seq<Card>)
    ensures FifteenPoints(eh) == 2 * (Selections(eh, 2, 15) + Selections(eh, 3, 15)
      + Selections(eh, 4, 15) + Selections(eh, 5, 15))
  {
    assert FifteensBelow(eh, 6) == SumCount(Combinations(eh, 2), 15) + SumCount(Combinations(eh, 3), 15)
      + SumCount(Combinations(eh, 4), 15) + SumCount(Combinations(eh, 5), 15) by {
      assert FifteensBelow(eh, 3) == SumCount(Combinations(eh, 2), 15);
      assert FifteensBelow(eh, 4) == FifteensBelow(eh, 3) + SumCount(Combinations(eh, 3), 15);
      assert FifteensBelow(eh, 5) == FifteensBelow(eh, 4) + SumCount(Combinations(eh, 4), 15);
    }
    SumCountSelections(eh, 2, 15);
    SumCountSelections(eh, 3, 15);
    SumCountSelections(eh, 4, 15);
    SumCountSelections(eh, 5, 15);
  }

  // ---------------------------------------------------------------------
  // Pairs
  // ---------------------------------------------------------------------

  /** A two-card tuple of equal ranks. */
  predicate IsPair(c: seq<Card>) {
    |c| == 2 && c[0].rank == c[1].rank
  }

  /** How many of the tuples are pairs. */
  function PairCount(cs: seq<seq<Card>>): nat {
    if cs == [] then 0
    else PairCount(cs[..|cs| - 1]) + (if IsPair(cs[|cs| - 1]) then 1 else 0)
  }

  lemma {:induction false} PairCountAppend(a: seq<seq<Card>>, b: seq<seq<Card>>)
    decreases |b|
    ensures PairCount(a + b) == PairCount(a) + PairCount(b)
  {
    if b == [] {
      assert a + b == a;
    } else {
      assert (a + b)[..|a + b| - 1] == a + b[..|b| - 1];
      assert (a + b)[|a + b| - 1] == b[|b| - 1];
      PairCountAppend(a, b[..|b| - 1]);
    }
  }

  /** The pairs whose first card is `a`: one per later card of the same rank. */
  lemma {:induction false} PairsWith(a: Card, t: seq<Card>)
    decreases |t|
    ensures PairCount(PrependAll(a, Combinations(t, 1))) == |OfRank(t, a.rank)|
  {
    if t != [] {
      var rest := Combinations(t[1..], 1);
      assert Combinations(t, 1) == [[t[0]]] + rest by {
        assert Combinations(t[1..], 0) == [[]];
        var q := PrependAll(t[0], [[]]);
        assert |q| == 1 && q[0] == [t[0]] + [] == [t[0]];
        assert q == [[t[0]]];
      }
      PrependAllAppend(a, [[t[0]]], rest);
      var q := PrependAll(a, [[t[0]]]);
      assert |q| == 1 && q[0] == [a] + [t[0]] == [a, t[0]];
      assert q == [[a, t[0]]];
      PairCountAppend([[a, t[0]]], PrependAll(a, rest));
      assert PairCount([[a, t[0]]]) == if a.rank == t[0].rank then 1 else 0 by {
        assert [[a, t[0]]][..0] == [];
      }
      PairsWith(a, t[1..]);
    }
  }

  /** The number of positions i < j holding cards of equal rank. */
  function SameRankPairs(s: seq<Card>): nat {
    if s == [] then 0 else |OfRank(s[1..], s[0].rank)| + SameRankPairs(s[1..])
  }

  /** Counting the pairs among the 2-combinations agrees with counting equal-rank positions. */
  lemma {:induction false} PairCountSameRank(s: seq<Card>)
    decreases |s|
    ensures PairCount(Combinations(s, 2)) == SameRankPairs(s)
  {
    if s != [] {
      PairCountAppend(PrependAll(s[0], Combinations(s[1..], 1)), Combinations(s[1..], 2));
      PairsWith(s[0], s[1..]);
      PairCountSameRank(s[1..]);
    }
  }

  /** Two points for each pair of cards of equal rank. */
  function PairPoints(eh: seq<Card>): nat {
    2 * PairCount(Combinations(eh, 2))
  }

  // ---------------------------------------------------------------------
  // Flushes, runs and his nobs
  // ---------------------------------------------------------------------

  /** Five for a five-card flush; otherwise four for a four-card flush in a hand that is not the crib. */
  function FlushPoints(hand: seq<Card>, turnUp: Card, isCrib: bool): nat {
    if ContainsFlush(hand + [turnUp], 5) then 5
    else if ContainsFlush(hand, 4) && !isCrib then 4
    else 0
  }

  lemma {:induction false} SuitCountFull(s: seq<Card>, su: Suit)
    ensures SuitCount(s, su) == |s| <==> forall k :: 0 <= k < |s| ==> s[k].suit == su
  {
    if s != [] {
      SuitCountFull(s[1..], su);
      assert forall k :: 1 <= k < |s| ==> s[k] == s[1..][k - 1];
    }
  }

  /**
   * For a four-card hand: five points exactly when hand and turn-up share
   * one suit, four exactly when only the hand does and it is not the crib.
   */
  lemma FlushPointsSpec(hand: seq<Card>, turnUp: Card, isCrib: bool)
    requires |hand| == 4
    ensures FlushPoints(hand, turnUp, isCrib) == 5 <==>
      forall k :: 0 <= k < 4 ==> hand[k].suit == turnUp.suit
    ensures FlushPoints(hand, turnUp, isCrib) == 4 <==>
      !isCrib && turnUp.suit != hand[0].suit && forall k :: 0 <= k < 4 ==> hand[k].suit == hand[0].suit
    ensures FlushPoints(hand, turnUp, isCrib) in {0, 4, 5}
  {
    FiveCardFlushIff(hand, turnUp);
    FourCardFlushIff(hand);
  }

  /** Hand and turn-up hold a five-card flush exactly when all five share the turn-up's suit. */
  lemma FiveCardFlushIff(hand: seq<Card>, turnUp: Card)
    requires |hand| == 4
    ensures ContainsFlush(hand + [turnUp], 5) <==> forall k :: 0 <= k < 4 ==> hand[k].suit == turnUp.suit
  {
    var eh := hand + [turnUp];
    ContainsFlushIff(eh, 5);
    SuitCountFull(eh, turnUp.suit);
    assert forall k :: 0 <= k < 4 ==> eh[k] == hand[k];
    assert eh[4] == turnUp;
    if ContainsFlush(eh, 5) {
      var su :| SuitCount(eh, su) == 5;
      SuitCountFull(eh, su);
    }
  }

  /** A four-card hand holds a four-card flush exactly when all four share one suit. */
  lemma FourCardFlushIff(hand: seq<Card>)
    requires |hand| == 4
    ensures ContainsFlush(hand, 4) <==> forall k :: 0 <= k < 4 ==> hand[k].suit == hand[0].suit
  {
    ContainsFlushIff(hand, 4);
    SuitCountFull(hand, hand[0].suit);
    if ContainsFlush(hand, 4) {
      var su :| SuitCount(hand, su) == 4;
      SuitCountFull(hand, su);
    }
  }

  /** The summed lengths of the straights, sum(map(len, runs)). */
  function TotalLength(runs: seq<seq<Card>>): nat {
    if runs == [] then 0 else TotalLength(runs[..|runs| - 1]) + |runs[|runs| - 1]|
  }

  /** One point per card of each straight of 3 to 5 cards in hand plus turn-up. */
  function RunPoints(hand: seq<Card>, turnUp: Card): nat {
    TotalLength(Straights(hand + [turnUp], 3, 5).value)
  }

  lemma {:induction false} TotalLengthPositive(runs: seq<seq<Card>>)
    requires forall p :: p in runs ==> p != []
    ensures TotalLength(runs) > 0 <==> runs != []
  {
    if runs != [] {
      assert runs[|runs| - 1] in runs;
    }
  }

  /**
   * Run points are awarded exactly when the ranks of hand plus turn-up hold
   * a maximal block of 3 to 5 consecutive ranks; a longer block scores none.
   */
  lemma RunPointsSpec(hand: seq<Card>, turnUp: Card)
    ensures RunPoints(hand, turnUp) > 0 <==>
      exists a, n :: 3 <= n <= 5 && IsMaximalBlock(hand + [turnUp], a, n)
  {
    var eh := hand + [turnUp];
    var runs := Straights(eh, 3, 5).value;
    forall p | p in runs
      ensures p != []
    {
      StraightsSound(eh, 3, 5, p);
    }
    TotalLengthPositive(runs);
    if runs != [] {
      assert runs[0] in runs;
      StraightsSound(eh, 3, 5, runs[0]);
    }
    if exists a, n :: 3 <= n <= 5 && IsMaximalBlock(eh, a, n) {
      var a, n :| 3 <= n <= 5 && IsMaximalBlock(eh, a, n);
      MaximalBlockStraight(eh, a, n, 3, 5);
    }
  }

  /** One point per Jack in the hand of the turn-up's suit. */
  function KnobCount(hand: seq<Card>, turnUp: Card): nat {
    if hand == [] then 0
    else
      var c := hand[|hand| - 1];
      KnobCount(hand[..|hand| - 1], turnUp) + (if c.rank == Jack && c.suit == turnUp.suit then 1 else 0)
  }

  /** His nobs counts the copies of the Jack of the turn-up's suit in the hand. */
  lemma {:induction false} KnobsSpec(hand: seq<Card>, turnUp: Card)
    ensures KnobCount(hand, turnUp) == multiset(hand)[Card(turnUp.suit, Jack)]
  {
    if hand != [] {
      assert hand == hand[..|hand| - 1] + [hand[|hand| - 1]];
      KnobsSpec(hand[..|hand| - 1], turnUp);
    }
  }

  /** A hand of distinct cards scores his nobs at most once. */
  lemma {:induction false} KnobsAtMostOne(hand: seq<Card>, turnUp: Card)
    requires Distinct(hand)
    ensures KnobCount(hand, turnUp) <= 1
  {
    if hand != [] {
      var init := hand[..|hand| - 1];
      var c := hand[|hand| - 1];
      assert Distinct(init);
      KnobsAtMostOne(init, turnUp);
      if c == Card(turnUp.suit, Jack) {
        KnobsSpec(init, turnUp);
        assert c !in init;
      }
    }
  }

  // ---------------------------------------------------------------------
  // The whole hand
  // ---------------------------------------------------------------------

  /** The five categories of _score_hand, added up. */
  function HandScore(hand: seq<Card>, turnUp: Card, isCrib: bool): nat {
    var eh := hand + [turnUp];
    FifteenPoints(eh) + PairPoints(eh) + FlushPoints(hand, turnUp, isCrib)
      + RunPoints(hand, turnUp) + KnobCount(hand, turnUp)
  }

  /** A single card makes no tuple of two or more. */
  lemma SingleCardCombinations(c: Card, k: nat)
    requires k >= 2
    ensures Combinations([c], k) == []
  {
    assert [c][1..] == [];
    assert Combinations([], k - 1) == [];
    assert Combinations([], k) == [];
  }

  /** A single card holds no straight of three or more. */
  lemma SingleCardNoRuns(c: Card)
    ensures Straights([c], 3, 5).value == []
  {
    var runs := Straights([c], 3, 5).value;
    if runs != [] {
      var p := runs[0];
      assert p in runs;
      // the two lowest cards of a straight differ in rank
      ghost var climbs := |p| >= 2 && p[1].rank == p[0].rank + 1;
      StraightsSound([c], 3, 5, p);
      assert false;
    }
  }

  /** With no cards in hand, the turn-up alone scores nothing. */
  lemma HandScoreEmptyHand(turnUp: Card, isCrib: bool)
    ensures HandScore([], turnUp, isCrib) == 0
  {
    var eh := [turnUp];
    assert [] + [turnUp] == eh;
    SingleCardCombinations(turnUp, 2);
    SingleCardCombinations(turnUp, 3);
    SingleCardCombinations(turnUp, 4);
    SingleCardCombinations(turnUp, 5);
    assert FifteenPoints(eh) == 0 by {
      assert FifteensBelow(eh, 3) == 0;
      assert FifteensBelow(eh, 4) == 0;
      assert FifteensBelow(eh, 5) == 0;
    }
    assert PairPoints(eh) == 0;
    ContainsFlushIff(eh, 5);
    assert forall su :: SuitCount(eh, su) <= 1;
    ContainsFlushIff([], 4);
    SingleCardNoRuns(turnUp);
  }

  /** The inner fifteens loop: how many of the tuples have values summing to `t`. */
  method CountSums(combos: seq<seq<Card>>, t: int) returns (k: nat)
    ensures k == SumCount(combos, t)
  {
    k := 0;
    for i := 0 to |combos|
      invariant k == SumCount(combos[..i], t)
    {
      assert combos[..i + 1][..i] == combos[..i];
      if PeggingTotal(combos[i]) == t {
        k := k + 1;
      }
    }
    assert combos[..|combos|] == combos;
  }

  /** The fifteens loops of _score_hand. */
  method CountFifteens(eh: seq<Card>) returns (points: nat)
    ensures points == FifteenPoints(eh)
  {
    points := 0;
    for n := 2 to 6
      invariant points == 2 * FifteensBelow(eh, n)
    {
      var combos := Combinations(eh, n);
      var k := CountSums(combos, 15);
      points := points + 2 * k;
    }
  }

  /** The loop over two-card tuples: how many of them are pairs. */
  method CountPairTuples(pairs: seq<seq<Card>>) returns (k: nat)
    requires forall p :: p in pairs ==> |p| == 2
    ensures k == PairCount(pairs)
  {
    k := 0;
    for i := 0 to |pairs|
      invariant k == PairCount(pairs[..i])
    {
      assert pairs[..i + 1][..i] == pairs[..i];
      assert pairs[i] in pairs;
      if pairs[i][0].rank == pairs[i][1].rank {
        k := k + 1;
      }
    }
    assert pairs[..|pairs|] == pairs;
  }

  /** The pairs loop of _score_hand. */
  method CountPairs(eh: seq<Card>) returns (points: nat)
    ensures points == PairPoints(eh)
  {
    var pairs := Combinations(eh, 2);
    CombinationsLength(eh, 2);
    var k := CountPairTuples(pairs);
    points := 2 * k;
  }

  /** The his-nobs loop of _score_hand. */
  method CountKnobs(hand: seq<Card>, turnUp: Card) returns (points: nat)
    ensures points == KnobCount(hand, turnUp)
  {
    points := 0;
    for i := 0 to |hand|
      invariant points == KnobCount(hand[..i], turnUp)
    {
      assert hand[..i + 1][..i] == hand[..i];
      if hand[i].rank == Jack && hand[i].suit == turnUp.suit {
        points := points + 1;
      }
    }
    assert hand[..|hand|] == hand;
  }

  /**
   * _score_hand: adds the turn-up to a copy of the hand, then counts each
   * category in turn; the hand itself is a value and so stays as it was.
   */
  method ScoreHand(hand: seq<Card>, turnUp: Card, isCrib: bool) returns (handScore: nat)
    ensures handScore == HandScore(hand, turnUp, isCrib)
  {
    var effective := new CardPile(hand);
    effective.AddCard(turnUp);
    var eh := effective.cards;

    var fifteens := CountFifteens(eh);
    handScore := fifteens;
    var pairs := CountPairs(eh);
    handScore := handScore + pairs;

    var flush := 0;
    if ContainsFlush(eh, 5) {
      flush := 5;
    } else if ContainsFlush(hand, 4) && !isCrib {
      flush := 4;
    }
    handScore := handScore + flush;

    var runs := effective.GetStraights(3, 5);
    var runLength := TotalLength(runs.value);
    handScore := handScore + runLength;

    var knobs := CountKnobs(hand, turnUp);
    handScore := handScore + knobs;
    HandScoreParts(hand, turnUp, isCrib, fifteens, pairs, flush, runLength, knobs);
  }

  /** The five category counts add up to the hand score. */
  lemma HandScoreParts(hand: seq<Card>, turnUp: Card, isCrib: bool, fifteens: nat, pairs: nat, flush: nat, runs: nat, knobs: nat)
    requires fifteens == FifteenPoints(hand + [turnUp]) && pairs == PairPoints(hand + [turnUp])
    requires flush == FlushPoints(hand, turnUp, isCrib) && runs == RunPoints(hand, turnUp)
    requires knobs == KnobCount(hand, turnUp)
    ensures fifteens + pairs + flush + runs + knobs == HandScore(hand, turnUp, isCrib)
  {
  }
}
