/**
 * The mutable card collection `Cards` of pycards/cards.py: a class over a
 * sequence of cards whose methods append, deal from the front, remove
 * single occurrences, shuffle, and enumerate flushes and straights.
 */
module CardPiles {
  import opened Wrappers
  import opened Cards

  /** The suits in their enumeration order (SPADES = 1 .. CLUBS = 4). */
  const AllSuits: seq<Suit> := [Spades, Hearts, Diamonds, Clubs]

  /** The position of a suit in the enumeration order. */
  function SuitIndex(su: Suit): (i: nat)
    ensures i < 4 && AllSuits[i] == su
  {
    match su
    case Spades => 0
    case Hearts => 1
    case Diamonds => 2
    case Clubs => 3
  }

  /** The unshuffled standard deck: suit by suit, and within a suit by rank. */
  function DeckOrder(): (d: seq<Card>) {
    seq(52, i requires 0 <= i < 52 => Card(AllSuits[i / 13], i % 13))
  }

  /**
   * The standard deck holds 52 cards, no two alike, each card appearing at
   * position 13 * (suit index) + rank.
   */
  lemma DeckOrderSpec()
    ensures |DeckOrder()| == 52
    ensures forall i, j :: 0 <= i < j < 52 ==> DeckOrder()[i] != DeckOrder()[j]
    ensures forall c: Card :: DeckOrder()[13 * SuitIndex(c.suit) + c.rank] == c
    ensures forall c: Card :: c in DeckOrder()
  {
    var d := DeckOrder();
    forall i, j | 0 <= i < j < 52
      ensures d[i] != d[j]
    {
      if i / 13 == j / 13 {
        assert i % 13 != j % 13;
      } else {
        assert AllSuits[i / 13] != AllSuits[j / 13];
      }
    }
    forall c: Card
      ensures d[13 * SuitIndex(c.suit) + c.rank] == c && c in d
    {
      var k := 13 * SuitIndex(c.suit) + c.rank;
      assert k / 13 == SuitIndex(c.suit) && k % 13 == c.rank;
      assert d[k] in d;
    }
  }

  /**
   * Fisher-Yates shuffle; each swap partner is an arbitrary choice, which
   * stands for the random generator. The result is a permutation.
   */
  method Shuffled(s: seq<Card>) returns (t: seq<Card>)
    ensures multiset(t) == multiset(s)
  {
    t := s;
    var i := |t|;
    while i > 1
      invariant 0 <= i <= |t|
      invariant multiset(t) == multiset(s)
    {
      var j :| 0 <= j < i;
      var a, b := t[j], t[i - 1];
      t := t[j := b][i - 1 := a];
      i := i - 1;
    }
  }

  /**
   * play_all as written: it iterates over the very list that each
   * play_card shortens, so position `idx` of the current list is played
   * and the position after it is skipped. Result: (played, left behind).
   */
  function PlayAllAsWritten(l: seq<Card>, idx: nat): (r: (seq<Card>, seq<Card>))
    decreases |l| - idx
  {
    if idx >= |l| then ([], l)
    else
      var c := l[idx];
      var next := PlayAllAsWritten(RemoveFirst(l, c), idx + 1);
      ([c] + next.0, next.1)
  }

  /**
   * From position idx the loop plays ceil((|l| - idx) / 2) cards and leaves
   * the rest, so play_all on n cards leaves floor(n / 2) of them behind.
   */
  lemma {:induction false} PlayAllAsWrittenCount(l: seq<Card>, idx: nat)
    requires idx <= |l|
    decreases |l| - idx
    ensures |PlayAllAsWritten(l, idx).0| == (|l| - idx + 1) / 2
    ensures |PlayAllAsWritten(l, idx).1| == |l| - (|l| - idx + 1) / 2
  {
    if idx < |l| {
      var l' := RemoveFirst(l, l[idx]);
      if idx + 1 <= |l'| {
        PlayAllAsWrittenCount(l', idx + 1);
      }
    }
  }

  /** On "AS 2S" play_all returns only the ace and leaves the two behind. */
  lemma PlayAllAsWrittenExample()
    ensures PlayAllAsWritten([Card(Spades, 0), Card(Spades, 1)], 0)
      == ([Card(Spades, 0)], [Card(Spades, 1)])
  {
    var l := [Card(Spades, 0), Card(Spades, 1)];
    assert RemoveFirst(l, l[0]) == [Card(Spades, 1)];
    var next := PlayAllAsWritten([Card(Spades, 1)], 1);
    assert next == ([], [Card(Spades, 1)]);
    assert PlayAllAsWritten(l, 0) == ([l[0]] + next.0, next.1);
    assert [l[0]] + next.0 == [Card(Spades, 0)];
  }

  class CardPile {
    var cards: seq<Card>

    constructor (cs: seq<Card>)
      ensures cards == cs
    {
      cards := cs;
    }

    /** Cards.empty. */
    constructor Empty()
      ensures cards == []
    {
      cards := [];
    }

    /** Cards.standard_deck: 52 cards in suit-major order, shuffled on request. */
    static method StandardDeck(shuffle: bool) returns (deck: CardPile)
      ensures fresh(deck)
      ensures !shuffle ==> deck.cards == DeckOrder()
      ensures multiset(deck.cards) == multiset(DeckOrder())
    {
      var cs: seq<Card> := [];
      var si := 0;
      while si < 4
        invariant 0 <= si <= 4
        invariant cs == DeckOrder()[..13 * si]
      {
        var value := 0;
        while value < 13
          invariant 0 <= value <= 13
          invariant cs == DeckOrder()[..13 * si + value]
        {
          assert DeckOrder()[13 * si + value] == Card(AllSuits[si], value);
          cs := cs + [Card(AllSuits[si], value)];
          value := value + 1;
        }
        si := si + 1;
      }
      assert DeckOrder()[..52] == DeckOrder();
      deck := new CardPile(cs);
      if shuffle {
        deck.Shuffle();
      }
    }

    /** __iadd__ with a single card: appended at the end. */
    method AddCard(c: Card)
      modifies this
      ensures cards == old(cards) + [c]
    {
      cards := cards + [c];
    }

    /**
     * __iadd__ with another collection: its cards appended, in order. A
     * collection added to itself never finishes (the list grows while it
     * is read), so the other collection must be a different one.
     */
    method AddCards(other: CardPile)
      requires other != this
      modifies this
      ensures cards == old(cards) + old(other.cards)
      ensures other.cards == old(other.cards)
    {
      cards := cards + other.cards;
    }

    /** Cards.shuffle: some permutation of the cards. */
    method Shuffle()
      modifies this
      ensures multiset(cards) == multiset(old(cards))
    {
      cards := Shuffled(cards);
    }

    /** Cards.deal_card: the first card, leaving the rest in order; IndexError when empty. */
    method DealCard() returns (r: Result<Card>)
      modifies this
      ensures old(cards) == [] ==> r == Err(IndexError) && cards == old(cards)
      ensures old(cards) != [] ==> r == Ok(old(cards)[0]) && cards == old(cards)[1..]
    {
      if cards == [] {
        return Err(IndexError);
      }
      r := Ok(cards[0]);
      cards := cards[1..];
    }

    /** Cards.play_card: removes the first occurrence; ValueError when absent. */
    method PlayCard(c: Card) returns (r: Result<Card>)
      modifies this
      ensures c in old(cards) ==> r == Ok(c) && cards == RemoveFirst(old(cards), c)
      ensures c !in old(cards) ==> r == Err(ValueError) && cards == old(cards)
    {
      if c !in cards {
        return Err(ValueError);
      }
      cards := RemoveFirst(cards, c);
      r := Ok(c);
    }

    /**
     * Cards.play_cards: plays each requested card in turn. The first card
     * that is missing raises ValueError, after the removals before it.
     */
    method PlayCards(xs: seq<Card>) returns (r: Result<seq<Card>>)
      modifies this
      ensures cards == RemoveEach(old(cards), xs).0
      ensures RemoveEach(old(cards), xs).1 ==> r == Ok(xs)
      ensures !RemoveEach(old(cards), xs).1 ==> r == Err(ValueError)
    {
      ghost var s0 := cards;
      var played: seq<Card> := [];
      var ok := true;
      var i := 0;
      while i < |xs| && ok
        invariant 0 <= i <= |xs|
        invariant RemoveUpTo(s0, xs, i) == (cards, ok)
        invariant ok ==> played == xs[..i]
        decreases |xs| - i
      {
        var p := PlayCard(xs[i]);
        if p.Ok? {
          assert xs[..i + 1] == xs[..i] + [xs[i]];
          played := played + [xs[i]];
        } else {
          ok := false;
        }
        i := i + 1;
      }
      if ok {
        assert xs[..i] == xs;
        r := Ok(played);
      } else {
        RemoveUpToFails(s0, xs, i, |xs|);
        r := Err(ValueError);
      }
    }

    /**
     * Cards.play_all, with the contract its documentation promises: every
     * card is returned and the collection is left empty. The source passes
     * its own list to play_cards, which then skips every other card while
     * removing; PlayAllAsWritten models that behaviour.
     */
    method PlayAll() returns (played: seq<Card>)
      modifies this
      ensures played == old(cards)
      ensures cards == []
    {
      RemoveEachSelf(cards);
      var r := PlayCards(cards);
      played := r.value;
    }

    /** Cards.play_random_card: some card of the pile, removed; IndexError when empty. */
    method PlayRandomCard() returns (r: Result<Card>)
      modifies this
      ensures old(cards) == [] ==> r == Err(IndexError) && cards == old(cards)
      ensures old(cards) != [] ==> r.Ok? && r.value in old(cards) && cards == RemoveFirst(old(cards), r.value)
    {
      if cards == [] {
        return Err(IndexError);
      }
      var k :| 0 <= k < |cards|;
      r := PlayCard(cards[k]);
    }

    /** Cards.get_flushes: one whole-suit result per suit counted in [lo, hi], most common first. */
    method GetFlushes(lo: int, hi: int) returns (flushes: seq<seq<Card>>)
      ensures flushes == Flushes(cards, lo, hi)
    {
      var cs := cards;
      var order := MostCommon(cs);
      flushes := [];
      var i := 0;
      while i < |order|
        invariant 0 <= i <= |order|
        invariant flushes == FlushesOf(cs, order[..i], lo, hi)
      {
        var su := order[i];
        FlushesOfStep(cs, order, i, lo, hi);
        var count := SuitCount(cs, su);
        if hi >= count >= lo {
          flushes := flushes + [OfSuit(cs, su)];
        }
        i := i + 1;
      }
      assert order[..i] == order;
    }

    /**
     * Cards.get_straights: groups the cards by rank, cuts the ascending
     * ranks into runs of consecutive values, and expands each run whose
     * length lies in [lo, hi] into the product of its rank groups.
     */
    method GetStraights(lo: int, hi: int) returns (r: Result<seq<seq<Card>>>)
      ensures r == Straights(cards, lo, hi)
    {
      var valToCards := GroupByRank(cards);
      // np.sort(list(val_to_cards)): the keys in ascending order, which is RanksPresent
      var vals := RanksPresent(cards);
      if vals == [] {
        return Err(IndexError);
      }
      var runs := SplitRuns(vals);
      RunsSpec(vals);
      var cardRuns := ExpandRuns(cards, valToCards, runs, lo, hi);
      assert Present(cards, vals[0]);
      r := Ok(cardRuns);
    }
  }

  /** The last loop of get_straights: each run in bounds expanded into the product of its rank groups. */
  method ExpandRuns(cards: seq<Card>, valToCards: map<Rank, seq<Card>>, runs: seq<seq<Rank>>, lo: int, hi: int)
    returns (cardRuns: seq<seq<Card>>)
    requires forall v :: v in valToCards ==> valToCards[v] == OfRank(cards, v)
    requires forall i, v :: 0 <= i < |runs| && v in runs[i] ==> v in valToCards
    ensures cardRuns == StraightsOf(cards, runs, lo, hi)
  {
    cardRuns := [];
    var m := 0;
    while m < |runs|
      invariant 0 <= m <= |runs|
      invariant cardRuns == Flatten(RunBlocks(cards, runs, lo, hi), m)
    {
      var run := runs[m];
      ExpandStep(cards, runs, m, lo, hi);
      if lo <= |run| <= hi {
        var groups := RunGroups(cards, valToCards, run);
        cardRuns := cardRuns + Product(groups);
      }
      m := m + 1;
    }
  }

  /** [val_to_cards[val] for val in run]: the rank groups of a run, looked up in the map. */
  method RunGroups(cards: seq<Card>, valToCards: map<Rank, seq<Card>>, run: seq<Rank>) returns (groups: seq<seq<Card>>)
    requires forall v :: v in run ==> v in valToCards && valToCards[v] == OfRank(cards, v)
    ensures groups == Groups(cards, run)
  {
    groups := seq(|run|, g requires 0 <= g < |run| => valToCards[run[g]]);
    assert forall g :: 0 <= g < |run| ==> run[g] in run && groups[g] == Groups(cards, run)[g];
  }

  /** One more run appends its own straights. */
  lemma ExpandStep(cards: seq<Card>, runs: seq<seq<Rank>>, m: nat, lo: int, hi: int)
    requires m < |runs|
    ensures Flatten(RunBlocks(cards, runs, lo, hi), m + 1)
      == Flatten(RunBlocks(cards, runs, lo, hi), m) + RunStraights(cards, runs[m], lo, hi)
  {
  }

  /** One more position of the suit order adds that suit's result when its count is in bounds. */
  lemma FlushesOfStep(s: seq<Card>, order: seq<Suit>, i: nat, lo: int, hi: int)
    requires i < |order|
    ensures FlushesOf(s, order[..i + 1], lo, hi) == FlushesOf(s, order[..i], lo, hi)
      + (if hi >= SuitCount(s, order[i]) >= lo then [OfSuit(s, order[i])] else [])
  {
    assert order[..i + 1][..i] == order[..i];
  }

  /** The map val_to_cards holds after scanning `pre`: each rank seen, mapped to its cards in order. */
  ghost predicate GroupsOf(m: map<Rank, seq<Card>>, pre: seq<Card>) {
    && (forall v: Rank :: v in m <==> OfRank(pre, v) != [])
    && (forall v :: v in m ==> m[v] == OfRank(pre, v))
  }

  /** Appending the next card to its rank's group keeps the map in step with the scanned cards. */
  lemma GroupsOfSnoc(m: map<Rank, seq<Card>>, pre: seq<Card>, c: Card)
    requires GroupsOf(m, pre)
    ensures GroupsOf(m[c.rank := if c.rank in m then m[c.rank] + [c] else [c]], pre + [c])
  {
    forall v: Rank
      ensures OfRank(pre + [c], v) == OfRank(pre, v) + (if c.rank == v then [c] else [])
    {
      OfRankSnoc(pre, c, v);
    }
  }

  /** The val_to_cards loop of get_straights: each present rank mapped to its cards, in order. */
  method GroupByRank(cards: seq<Card>) returns (valToCards: map<Rank, seq<Card>>)
    ensures forall v: Rank :: v in valToCards <==> Present(cards, v)
    ensures forall v :: v in valToCards ==> valToCards[v] == OfRank(cards, v)
  {
    valToCards := map[];
    var i := 0;
    while i < |cards|
      invariant 0 <= i <= |cards|
      invariant GroupsOf(valToCards, cards[..i])
    {
      var c := cards[i];
      GroupsOfSnoc(valToCards, cards[..i], c);
      assert cards[..i + 1] == cards[..i] + [c];
      var group := if c.rank in valToCards then valToCards[c.rank] + [c] else [c];
      valToCards := valToCards[c.rank := group];
      i := i + 1;
    }
    assert cards[..i] == cards;
  }

  /** The diff loop of get_straights: the runs of consecutive values of `vals`. */
  method SplitRuns(vals: seq<Rank>) returns (runs: seq<seq<Rank>>)
    requires |vals| >= 1
    ensures runs == Runs(vals)
  {
    runs := [];
    var current: seq<Rank> := [vals[0]];
    var j := 0;
    while j < |vals| - 1
      invariant 0 <= j <= |vals| - 1
      invariant (runs, current) == RunsAcc(vals[..j + 1])
    {
      assert vals[..j + 2][..j + 1] == vals[..j + 1];
      if vals[j + 1] as int - vals[j] as int == 1 {
        current := current + [vals[j + 1]];
      } else {
        runs := runs + [current];
        current := [vals[j + 1]];
      }
      j := j + 1;
    }
    assert vals[..j + 1] == vals;
    runs := runs + [current];
  }
}
