/**
 * The deck of the earlier pycribbage package (pycribbage/cards.py): a card
 * printed as "ACE OF SPADES", the 52 cards built suit by suit, and a deck
 * object holding them, shuffled unless asked otherwise. Its suit enum has
 * the same members in the same order as the one of pycards, so the model
 * shares the Suit and Card types of the Cards module.
 */
module LegacyDeck {
  import opened Cards
  import opened CardPiles

  /** FACE_VALUES: the English name of each face value, indexed by value. */
  const FaceValues: seq<string> :=
    ["Ace", "Two", "Three", "Four", "Five", "Six", "Seven",
     "Eight", "Nine", "Ten", "Jack", "Queen", "King"]

  /** str.upper, character by character. */
  function UpperString(s: string): (u: string)
    ensures |u| == |s| && forall i :: 0 <= i < |s| ==> u[i] == Upper(s[i])
  {
    seq(|s|, i requires 0 <= i < |s| => Upper(s[i]))
  }

  /** Card.__repr__: the upper-cased face name, " OF ", the suit's enum name. */
  function Repr(c: Card): string {
    UpperString(FaceValues[c.rank]) + " OF " + SuitName(c.suit)
  }

  /** The upper-cased face names, as spelled out. */
  const UpperFaces: seq<string> :=
    ["ACE", "TWO", "THREE", "FOUR", "FIVE", "SIX", "SEVEN",
     "EIGHT", "NINE", "TEN", "JACK", "QUEEN", "KING"]

  /** Upper-casing a face name gives the spelled-out capitals, with no space in them. */
  lemma UpperFace(r: Rank)
    ensures UpperString(FaceValues[r]) == UpperFaces[r] && ' ' !in UpperFaces[r]
  {
  }

  /**
   * The printed form names the card: "ACE OF SPADES" is the ace of spades,
   * and two cards print alike exactly when they are the same card.
   */
  lemma ReprNamesCard(a: Card, b: Card)
    ensures Repr(Card(Spades, 0)) == "ACE OF SPADES"
    ensures Repr(a) == Repr(b) <==> a == b
  {
    UpperFace(0);
    if Repr(a) == Repr(b) {
      UpperFace(a.rank);
      UpperFace(b.rank);
      SplitAtSeparator(UpperFaces[a.rank], SuitName(a.suit), UpperFaces[b.rank], SuitName(b.suit));
      assert a.rank == b.rank by {
        assert forall i, j :: 0 <= i < j < 13 ==> UpperFaces[i] != UpperFaces[j];
      }
      SuitInitial(a.suit);
      SuitInitial(b.suit);
    }
  }

  /** Text before and after the first " OF " is recovered when the head has no space. */
  lemma SplitAtSeparator(x1: string, y1: string, x2: string, y2: string)
    requires ' ' !in x1 && ' ' !in x2
    requires x1 + " OF " + y1 == x2 + " OF " + y2
    ensures x1 == x2 && y1 == y2
  {
    var s := x1 + " OF " + y1;
    FirstSpace(x1, y1);
    FirstSpace(x2, y2);
    assert x1 == s[..|x1|] == x2;
    assert y1 == s[|x1| + 4..] == y2;
  }

  /** In `x + " OF " + y` with no space in `x`, the first space sits right after `x`. */
  lemma FirstSpace(x: string, y: string)
    requires ' ' !in x
    ensures FirstSpaceAt(x + " OF " + y, |x|)
  {
    var s := x + " OF " + y;
    forall i | 0 <= i < |x|
      ensures s[i] != ' '
    {
      assert s[i] == x[i];
    }
  }

  /** Position `n` of `s` holds the first space. */
  ghost predicate FirstSpaceAt(s: string, n: nat) {
    n < |s| && s[n] == ' ' && forall i :: 0 <= i < n ==> s[i] != ' '
  }

  /**
   * Deck.init_cards: for each suit in enumeration order, the values 0 to
   * 12 in turn; that is the standard order, 52 cards with each (suit,
   * value) pair exactly once (DeckOrderSpec).
   */
  method InitCards() returns (cards: seq<Card>)
    ensures cards == DeckOrder()
  {
    cards := [];
    for s := 0 to 4
      invariant cards == DeckOrder()[..13 * s]
    {
      for v := 0 to 13
        invariant cards == DeckOrder()[..13 * s + v]
      {
        assert DeckOrder()[13 * s + v] == Card(AllSuits[s], v);
        assert DeckOrder()[..13 * s + v + 1] == DeckOrder()[..13 * s + v] + [Card(AllSuits[s], v)];
        cards := cards + [Card(AllSuits[s], v)];
      }
    }
  }

  /** Deck: a list of cards built by init_cards and then shuffled in place unless told not to. */
  class Deck {
    var cards: seq<Card>

    /** Deck(shuffled): init_cards as is, or a permutation of it when shuffled. */
    constructor (shuffled: bool)
      ensures !shuffled ==> cards == DeckOrder()
      ensures multiset(cards) == multiset(DeckOrder())
    {
      var cs := InitCards();
      if shuffled {
        cs := Shuffled(cs);
      }
      cards := cs;
    }
  }
}
