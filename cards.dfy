/**
 * Playing cards, their two-character text form, and the pure operations on
 * card sequences that the collection class and the scorer share: removal of
 * one occurrence, grouping by suit (flushes) and by rank (straights).
 */
module Cards {
  import opened Wrappers

  /** The four suits, in the declaration order of the Suit enum. */
  datatype Suit = Spades | Hearts | Diamonds | Clubs

  /** A face value: 0 is the Ace, 9 the Ten, 10 the Jack, 12 the King. */
  type Rank = r: int | 0 <= r < 13

  const Ten: Rank := 9
  const Jack: Rank := 10

  /** Equality is on (suit, rank); ordering (Less) is on rank alone. */
  datatype Card = Card(suit: Suit, rank: Rank)

  /** The symbol of each face value, indexed by rank. */
  const RankSymbols: string := "A23456789TJQK"

  /** The enum member name of a suit. */
  function SuitName(s: Suit): string {
    match s
    case Spades => "SPADES"
    case Hearts => "HEARTS"
    case Diamonds => "DIAMONDS"
    case Clubs => "CLUBS"
  }

  /**
   * Python's upper-casing of one character, as far as it can matter here:
   * ASCII letters, and the two non-ASCII letters whose upper case is an
   * ASCII letter (dotless i and long s). Every other character either is
   * left alone or upper-cases to something that is no card symbol either.
   */
  function Upper(c: char): char {
    if 'a' <= c <= 'z' then (c as int - 32) as char
    else if c == '\U{0131}' then 'I'
    else if c == '\U{017F}' then 'S'
    else c
  }

  /** ASCII lower-casing, used to state that decoding ignores case. */
  function Lower(c: char): char {
    if 'A' <= c <= 'Z' then (c as int + 32) as char else c
  }

  // ---------------------------------------------------------------------
  // Text codec
  // ---------------------------------------------------------------------

  /** Suit.from_string: the first letter of a suit name, else ValueError. */
  function SuitFromString(s: string): (r: Result<Suit>)
    ensures r.Ok? <==> s == "S" || s == "H" || s == "D" || s == "C"
    ensures r.Ok? ==> s == [SuitName(r.value)[0]]
    ensures r.Err? ==> r.error == ValueError
  {
    if s == "S" then Ok(Spades)
    else if s == "H" then Ok(Hearts)
    else if s == "D" then Ok(Diamonds)
    else if s == "C" then Ok(Clubs)
    else Err(ValueError)
  }

  /** Lookup in the inverse symbol table from index `from` on; KeyError if absent. */
  function FindRank(c: char, from: nat): (r: Result<Rank>)
    requires from <= 13
    decreases 13 - from
    ensures r.Ok? <==> exists k :: from <= k < 13 && RankSymbols[k] == c
    ensures r.Ok? ==> from <= r.value && RankSymbols[r.value] == c
    ensures r.Err? ==> r.error == KeyError
  {
    if from == 13 then Err(KeyError)
    else if RankSymbols[from] == c then Ok(from)
    else FindRank(c, from + 1)
  }

  /** STR_TO_FACE_VALUE lookup of a one-character rank symbol. */
  function RankFromSymbol(c: char): (r: Result<Rank>)
    ensures r.Ok? <==> c in RankSymbols
    ensures r.Ok? ==> RankSymbols[r.value] == c
    ensures r.Err? ==> r.error == KeyError
  {
    FindRank(c, 0)
  }

  /** Card.from_string: length check, then rank (KeyError), then suit (ValueError). */
  function CardFromString(s: string): Result<Card> {
    if |s| != 2 then Err(ValueError)
    else
      match RankFromSymbol(Upper(s[0]))
      case Err(e) => Err(e)
      case Ok(rank) =>
        match SuitFromString([Upper(s[1])])
        case Err(e) => Err(e)
        case Ok(suit) => Ok(Card(suit, rank))
  }

  /** Card.__repr__: rank symbol followed by the suit initial. */
  function CardToString(c: Card): string {
    [RankSymbols[c.rank], SuitName(c.suit)[0]]
  }

  lemma RankSymbolsDistinct(a: Rank, b: Rank)
    requires RankSymbols[a] == RankSymbols[b]
    ensures a == b
  {
  }

  /** Encoding then decoding gives the card back. */
  lemma DecodeEncode(c: Card)
    ensures CardFromString(CardToString(c)) == Ok(c)
    ensures ' ' !in CardToString(c)
  {
    var s := CardToString(c);
    assert s[0] == RankSymbols[c.rank] && s[1] == SuitName(c.suit)[0];
    UpperRankSymbol(c.rank);
    var r := RankFromSymbol(RankSymbols[c.rank]);
    RankSymbolsDistinct(r.value, c.rank);
    SuitInitial(c.suit);
  }

  /** Rank symbols are upper case already. */
  lemma UpperRankSymbol(k: Rank)
    ensures Upper(RankSymbols[k]) == RankSymbols[k] && RankSymbols[k] != ' '
  {
    assert 'A' <= RankSymbols[k] <= 'Z' || '2' <= RankSymbols[k] <= '9';
  }

  /** A suit initial is upper case and decodes to its suit. */
  lemma SuitInitial(su: Suit)
    ensures Upper(SuitName(su)[0]) == SuitName(su)[0] && SuitName(su)[0] != ' '
    ensures SuitFromString([SuitName(su)[0]]) == Ok(su)
  {
    match su
    case Spades =>
    case Hearts =>
    case Diamonds =>
    case Clubs =>
  }

  /** Decoding is the inverse of encoding up to upper case. */
  lemma EncodeDecode(s: string)
    requires CardFromString(s).Ok?
    ensures CardToString(CardFromString(s).value) == [Upper(s[0]), Upper(s[1])]
  {
  }

  /** Decoding accepts the lower-case form of every canonical encoding. */
  lemma DecodeLowerCase(c: Card)
    ensures var s := CardToString(c); CardFromString([Lower(s[0]), Lower(s[1])]) == Ok(c)
  {
    var s := CardToString(c);
    var t := [Lower(s[0]), Lower(s[1])];
    assert Upper(t[0]) == s[0];
    assert Upper(t[1]) == s[1];
    assert t == [Lower(s[0]), Lower(s[1])];
    DecodeEncode(c);
  }

  /** The three ways decoding fails, and the exception each one raises. */
  lemma DecodeErrors(s: string)
    ensures |s| != 2 ==> CardFromString(s) == Err(ValueError)
    ensures |s| == 2 && Upper(s[0]) !in RankSymbols ==> CardFromString(s) == Err(KeyError)
    ensures |s| == 2 && Upper(s[0]) in RankSymbols && Upper(s[1]) !in "SHDC"
      ==> CardFromString(s) == Err(ValueError)
    ensures CardFromString(s).Ok? <==>
      |s| == 2 && Upper(s[0]) in RankSymbols && Upper(s[1]) in "SHDC"
  {
  }

  /** Card.__lt__: cards compare by face value only. */
  predicate Less(a: Card, b: Card) {
    a.rank < b.rank
  }

  /** Less is a strict weak order whose incomparable cards are those of equal rank. */
  lemma LessIsStrictWeakOrder(a: Card, b: Card, c: Card)
    ensures !Less(a, a)
    ensures Less(a, b) ==> !Less(b, a)
    ensures Less(a, b) && Less(b, c) ==> Less(a, c)
    ensures !Less(a, b) && !Less(b, a) <==> a.rank == b.rank
  {
  }

  // ---------------------------------------------------------------------
  // Delimited text form of a card sequence (Cards.from_string / __repr__)
  // ---------------------------------------------------------------------

  /** No character of `p` occurs in the separator `d`. */
  predicate Apart(p: string, d: string) {
    forall j :: 0 <= j < |p| ==> p[j] !in d
  }

  /**
   * str.split with a non-empty separator: scanning from the left, every
   * occurrence of `d` that does not overlap an earlier one cuts the string.
   */
  function Split(s: string, d: string): (parts: seq<string>)
    requires d != ""
    decreases |s|
    ensures |parts| >= 1
  {
    if |s| < |d| then [s]
    else if s[..|d|] == d then [""] + Split(s[|d|..], d)
    else
      var ps := Split(s[1..], d);
      [[s[0]] + ps[0]] + ps[1..]
  }

  /** str.join: the pieces with one separator between neighbours. */
  function Join(parts: seq<string>, d: string): string {
    if parts == [] then ""
    else if |parts| == 1 then parts[0] else parts[0] + d + Join(parts[1..], d)
  }

  /** A piece sharing no character with the separator is never cut. */
  lemma {:induction false} SplitApart(p: string, d: string)
    requires d != "" && Apart(p, d)
    decreases |p|
    ensures Split(p, d) == [p]
  {
    if |p| >= |d| {
      assert p[..|d|][0] == p[0];
      assert Apart(p[1..], d) by {
        forall j | 0 <= j < |p[1..]| ensures p[1..][j] !in d { assert p[1..][j] == p[j + 1]; }
      }
      SplitApart(p[1..], d);
      assert [p[0]] + p[1..] == p;
    }
  }

  /** A separator right after a piece that shares no character with it is the first cut. */
  lemma {:induction false} SplitAfterApart(p: string, d: string, t: string)
    requires d != "" && Apart(p, d)
    decreases |p|
    ensures Split(p + d + t, d) == [p] + Split(t, d)
  {
    var s := p + d + t;
    if p == [] {
      assert s == d + t;
      assert s[..|d|] == d && s[|d|..] == t;
    } else {
      assert s[..|d|][0] == p[0];
      assert Apart(p[1..], d) by {
        forall j | 0 <= j < |p[1..]| ensures p[1..][j] !in d { assert p[1..][j] == p[j + 1]; }
      }
      SplitAfterApart(p[1..], d, t);
      assert s[1..] == p[1..] + d + t;
      assert [p[0]] + p[1..] == p;
    }
  }

  /** Splitting undoes joining when no piece shares a character with the separator. */
  lemma {:induction false} SplitJoin(parts: seq<string>, d: string)
    requires d != "" && |parts| >= 1
    requires forall k :: 0 <= k < |parts| ==> Apart(parts[k], d)
    ensures Split(Join(parts, d), d) == parts
  {
    if |parts| == 1 {
      SplitApart(parts[0], d);
    } else {
      SplitAfterApart(parts[0], d, Join(parts[1..], d));
      SplitJoin(parts[1..], d);
    }
  }

  /** Joining a piece in front of at least one more piece puts one separator between them. */
  lemma JoinCons(p: string, rest: seq<string>, d: string)
    requires |rest| >= 1
    ensures Join([p] + rest, d) == p + d + Join(rest, d)
  {
    var ps := [p] + rest;
    assert ps[0] == p && ps[1..] == rest;
  }

  /** Putting a character in front of the first piece puts it in front of the joined string. */
  lemma JoinFront(c: char, ps: seq<string>, d: string)
    requires |ps| >= 1
    ensures Join([[c] + ps[0]] + ps[1..], d) == [c] + Join(ps, d)
  {
    var qs := [[c] + ps[0]] + ps[1..];
    assert qs[0] == [c] + ps[0] && qs[1..] == ps[1..];
  }

  /** Joining the pieces of a split restores the string. */
  lemma {:induction false} JoinSplit(s: string, d: string)
    requires d != ""
    decreases |s|
    ensures Join(Split(s, d), d) == s
  {
    if |s| >= |d| {
      if s[..|d|] == d {
        var tail := s[|d|..];
        JoinSplit(tail, d);
        JoinCons("", Split(tail, d), d);
        assert s == d + tail;
      } else {
        JoinSplit(s[1..], d);
        JoinFront(s[0], Split(s[1..], d), d);
        assert s == [s[0]] + s[1..];
      }
    }
  }

  /** Decodes each piece in turn; the first failure is the result. */
  function DecodeAll(parts: seq<string>): (r: Result<seq<Card>>)
    ensures r.Ok? ==> |r.value| == |parts|
    ensures r.Ok? <==> forall k :: 0 <= k < |parts| ==> CardFromString(parts[k]).Ok?
    ensures r.Ok? ==> forall k :: 0 <= k < |parts| ==> CardFromString(parts[k]) == Ok(r.value[k])
  {
    if parts == [] then Ok([])
    else
      match CardFromString(parts[0])
      case Err(e) => Err(e)
      case Ok(c) =>
        match DecodeAll(parts[1..])
        case Err(e) => Err(e)
        case Ok(cs) => Ok([c] + cs)
  }

  /**
   * Cards.from_string: split on the delimiter and decode every piece; an
   * empty delimiter is the ValueError str.split raises.
   */
  function CardsFromString(s: string, delimiter: string): Result<seq<Card>> {
    if delimiter == "" then Err(ValueError) else DecodeAll(Split(s, delimiter))
  }

  function EncodeAll(cs: seq<Card>): (parts: seq<string>)
    ensures |parts| == |cs|
    ensures forall k :: 0 <= k < |cs| ==> parts[k] == CardToString(cs[k])
  {
    if cs == [] then [] else [CardToString(cs[0])] + EncodeAll(cs[1..])
  }

  /** Cards.__repr__: the encodings joined by spaces. */
  function CardsToString(cs: seq<Card>): string {
    Join(EncodeAll(cs), " ")
  }

  /**
   * Printing a non-empty collection and parsing it back gives the same
   * cards; the empty collection prints as "", which does not parse, and
   * no text parses with an empty delimiter.
   */
  lemma CardsRoundTrip(cs: seq<Card>)
    ensures cs != [] ==> CardsFromString(CardsToString(cs), " ") == Ok(cs)
    ensures cs == [] ==> CardsFromString(CardsToString(cs), " ") == Err(ValueError)
    ensures CardsFromString(CardsToString(cs), "") == Err(ValueError)
  {
    if cs == [] {
      assert Split("", " ") == [""];
      return;
    }
    var parts := EncodeAll(cs);
    forall k | 0 <= k < |parts| ensures Apart(parts[k], " ") {
      DecodeEncode(cs[k]);
    }
    SplitJoin(parts, " ");
    DecodeEncodeAll(cs);
  }

  /** Decoding the encodings of the cards gives the cards back. */
  lemma {:induction false} DecodeEncodeAll(cs: seq<Card>)
    ensures DecodeAll(EncodeAll(cs)) == Ok(cs)
  {
    if cs != [] {
      var c, rest := cs[0], cs[1..];
      var parts := EncodeAll(cs);
      assert parts == [CardToString(c)] + EncodeAll(rest);
      assert parts[0] == CardToString(c) && parts[1..] == EncodeAll(rest);
      DecodeEncode(c);
      DecodeEncodeAll(rest);
      assert DecodeAll(parts) == Ok([c] + rest);
      assert cs == [c] + rest;
    }
  }

  // ---------------------------------------------------------------------
  // Removing cards (list.remove, one occurrence at a time)
  // ---------------------------------------------------------------------

  /** list.remove: drops the first occurrence of `x`. */
  function RemoveFirst<T(==)>(s: seq<T>, x: T): (r: seq<T>)
    requires x in s
    ensures |r| == |s| - 1
  {
    assert s == [s[0]] + s[1..];
    if s[0] == x then s[1..] else [s[0]] + RemoveFirst(s[1..], x)
  }

  /** list.remove takes out exactly one occurrence of `x` and keeps everything else. */
  lemma {:induction false} RemoveFirstCounts<T>(s: seq<T>, x: T)
    requires x in s
    ensures multiset(RemoveFirst(s, x)) == multiset(s) - multiset{x}
  {
    assert s == [s[0]] + s[1..];
    if s[0] != x {
      RemoveFirstCounts(s[1..], x);
      assert RemoveFirst(s, x) == [s[0]] + RemoveFirst(s[1..], x);
    }
  }

  /** When `k` is the first position of `x`, removal cuts out exactly position `k`. */
  lemma {:induction false} RemoveFirstAt<T>(s: seq<T>, x: T, k: nat)
    requires k < |s| && s[k] == x && x !in s[..k]
    ensures x in s && RemoveFirst(s, x) == s[..k] + s[k + 1..]
  {
    var t := s[1..];
    if k == 0 {
      assert s[..k] + s[k + 1..] == t;
    } else {
      assert s[0] != x by {
        assert s[..k][0] == s[0];
      }
      assert t[..k - 1] == s[1..k] && t[k..] == s[k + 1..];
      assert x !in t[..k - 1];
      RemoveFirstAt(t, x, k - 1);
      assert RemoveFirst(s, x) == [s[0]] + (t[..k - 1] + t[k..]);
      assert s[..k] == [s[0]] + t[..k - 1];
    }
  }

  /**
   * Removes one occurrence of each of the first `n` elements of `xs`, in
   * order, the way a loop of list.remove calls does; the flag is false
   * when an element was absent, and the sequence is then what the removals
   * before it left.
   */
  function RemoveUpTo<T(==)>(s: seq<T>, xs: seq<T>, n: nat): (r: (seq<T>, bool))
    requires n <= |xs|
  {
    if n == 0 then (s, true)
    else
      var t := RemoveUpTo(s, xs, n - 1);
      var x := xs[n - 1];
      if !t.1 then t
      else if x !in t.0 then (t.0, false)
      else (RemoveFirst(t.0, x), true)
  }

  /** The removals of every element of `xs`. */
  function RemoveEach<T(==)>(s: seq<T>, xs: seq<T>): (r: (seq<T>, bool)) {
    RemoveUpTo(s, xs, |xs|)
  }

  /** Taking one more element out keeps the multiset balance (pointwise step). */
  lemma TakeOut<T>(t: multiset<T>, t': multiset<T>, a: multiset<T>, m: multiset<T>, s: multiset<T>, x: T)
    requires t + a == s && x in t && t' == t - multiset{x} && m == a + multiset{x}
    ensures t' + m == s
  {
    forall y ensures (t' + m)[y] == s[y] {
      assert t'[y] == t[y] - multiset{x}[y];
    }
  }

  /** When the first `n` removals succeed, what is left and what was removed make up `s` again. */
  lemma {:induction false} RemoveUpToCounts<T>(s: seq<T>, xs: seq<T>, n: nat)
    requires n <= |xs|
    ensures RemoveUpTo(s, xs, n).1 ==> |RemoveUpTo(s, xs, n).0| == |s| - n
    ensures RemoveUpTo(s, xs, n).1 ==> multiset(RemoveUpTo(s, xs, n).0) + multiset(xs[..n]) == multiset(s)
  {
    if n > 0 {
      var x := xs[n - 1];
      assert xs[..n] == xs[..n - 1] + [x];
      RemoveUpToCounts(s, xs, n - 1);
      var t := RemoveUpTo(s, xs, n - 1);
      if t.1 && x in t.0 {
        RemoveFirstCounts(t.0, x);
        TakeOut(multiset(t.0), multiset(RemoveFirst(t.0, x)), multiset(xs[..n - 1]), multiset(xs[..n]), multiset(s), x);
      }
    }
  }

  /** When the removals succeed, what is left and what was removed make up `s` again. */
  lemma RemoveEachCounts<T>(s: seq<T>, xs: seq<T>)
    ensures RemoveEach(s, xs).1 ==> |RemoveEach(s, xs).0| == |s| - |xs|
    ensures RemoveEach(s, xs).1 ==> multiset(RemoveEach(s, xs).0) + multiset(xs) == multiset(s)
  {
    RemoveUpToCounts(s, xs, |xs|);
    assert xs[..|xs|] == xs;
  }

  /** With `t + a == s`, `a + {x}` fits in `s` exactly when `x` is in `t` (pointwise step). */
  lemma FitsOneMore<T>(t: multiset<T>, a: multiset<T>, m: multiset<T>, s: multiset<T>, x: T)
    requires t + a == s && m == a + multiset{x}
    ensures m <= s <==> x in t
  {
    if x !in t {
      assert m[x] > s[x];
    } else {
      forall y ensures m[y] <= s[y] {
        assert m[y] == a[y] + multiset{x}[y];
      }
    }
  }

  /** A superset of an over-full multiset is over-full as well (pointwise step). */
  lemma NotFits<T>(a: multiset<T>, m: multiset<T>, s: multiset<T>, x: T)
    requires !(a <= s) && m == a + multiset{x}
    ensures !(m <= s)
  {
    var y :| a[y] > s[y];
    assert m[y] >= a[y];
  }

  /** The first `n` removals all succeed exactly when those elements form a sub-multiset of `s`. */
  lemma {:induction false} RemoveUpToSucceeds<T>(s: seq<T>, xs: seq<T>, n: nat)
    requires n <= |xs|
    ensures RemoveUpTo(s, xs, n).1 <==> multiset(xs[..n]) <= multiset(s)
  {
    if n > 0 {
      var x := xs[n - 1];
      assert xs[..n] == xs[..n - 1] + [x];
      RemoveUpToSucceeds(s, xs, n - 1);
      RemoveUpToCounts(s, xs, n - 1);
      var t := RemoveUpTo(s, xs, n - 1);
      if t.1 {
        FitsOneMore(multiset(t.0), multiset(xs[..n - 1]), multiset(xs[..n]), multiset(s), x);
      } else {
        NotFits(multiset(xs[..n - 1]), multiset(xs[..n]), multiset(s), x);
      }
    }
  }

  /** The removals all succeed exactly when `xs` is a sub-multiset of `s`. */
  lemma RemoveEachSucceeds<T>(s: seq<T>, xs: seq<T>)
    ensures RemoveEach(s, xs).1 <==> multiset(xs) <= multiset(s)
  {
    RemoveUpToSucceeds(s, xs, |xs|);
    assert xs[..|xs|] == xs;
  }

  /** Once the first `k` removals fail, every longer run of removals fails with the same remainder. */
  lemma {:induction false} RemoveUpToFails<T>(s: seq<T>, xs: seq<T>, k: nat, n: nat)
    requires k <= n <= |xs| && !RemoveUpTo(s, xs, k).1
    decreases n
    ensures RemoveUpTo(s, xs, n) == RemoveUpTo(s, xs, k)
  {
    if k < n {
      RemoveUpToFails(s, xs, k, n - 1);
    }
  }

  /** Removing the first k elements of a sequence from itself succeeds and leaves the rest. */
  lemma {:induction false} RemoveUpToSelf<T>(s: seq<T>, k: nat)
    requires k <= |s|
    ensures RemoveUpTo(s, s, k) == (s[k..], true)
  {
    if k > 0 {
      RemoveUpToSelf(s, k - 1);
      var rest := s[k - 1..];
      assert rest[0] == s[k - 1] && rest[1..] == s[k..];
    }
  }

  /** Removing every element of a sequence from itself succeeds and leaves nothing. */
  lemma RemoveEachSelf<T>(s: seq<T>)
    ensures RemoveEach(s, s) == ([], true)
  {
    RemoveUpToSelf(s, |s|);
  }

  // ---------------------------------------------------------------------
  // Flushes: grouping by suit
  // ---------------------------------------------------------------------

  /** The cards of suit `su`, in their original order. */
  function OfSuit(s: seq<Card>, su: Suit): (r: seq<Card>)
    ensures |r| <= |s|
    ensures forall k :: 0 <= k < |r| ==> r[k].suit == su
    ensures r != [] <==> exists k :: 0 <= k < |s| && s[k].suit == su
  {
    if s == [] then []
    else
      assert s == [s[0]] + s[1..];
      (if s[0].suit == su then [s[0]] else []) + OfSuit(s[1..], su)
  }

  /** The Counter value of a suit. */
  function SuitCount(s: seq<Card>, su: Suit): nat {
    |OfSuit(s, su)|
  }

  ghost predicate Distinct<T>(l: seq<T>) {
    forall i, j :: 0 <= i < j < |l| ==> l[i] != l[j]
  }

  /** The suits present in `s`, each once, in order of first appearance (Counter's key order). */
  function SuitsInOrder(s: seq<Card>): (r: seq<Suit>)
    ensures forall su :: su in r <==> exists k :: 0 <= k < |s| && s[k].suit == su
    ensures Distinct(r)
  {
    if s == [] then []
    else
      var init := s[..|s| - 1];
      var d := SuitsInOrder(init);
      assert forall k :: 0 <= k < |init| ==> init[k] == s[k];
      if s[|s| - 1].suit in d then d else d + [s[|s| - 1].suit]
  }

  ghost predicate CountNonIncreasing(s: seq<Card>, l: seq<Suit>) {
    forall i, j :: 0 <= i < j < |l| ==> SuitCount(s, l[i]) >= SuitCount(s, l[j])
  }

  /** Inserts `x` after every suit whose count is at least that of `x`. */
  function InsertByCount(s: seq<Card>, x: Suit, l: seq<Suit>): (r: seq<Suit>)
    ensures |r| == |l| + 1
    ensures forall y :: y in r <==> y in l || y == x
  {
    if l == [] then [x]
    else if SuitCount(s, l[0]) >= SuitCount(s, x) then [l[0]] + InsertByCount(s, x, l[1..])
    else [x] + l
  }

  lemma {:induction false} InsertByCountDistinct(s: seq<Card>, x: Suit, l: seq<Suit>)
    requires Distinct(l) && x !in l
    ensures Distinct(InsertByCount(s, x, l))
  {
    if l != [] && SuitCount(s, l[0]) >= SuitCount(s, x) {
      assert forall k :: 0 <= k < |l[1..]| ==> l[1..][k] == l[k + 1];
      assert forall y :: y in l[1..] ==> y in l;
      InsertByCountDistinct(s, x, l[1..]);
      assert l[0] !in l[1..];
    }
  }

  /** The tail of a count-sorted list is sorted, and its head has the largest count. */
  lemma SortedHead(s: seq<Card>, l: seq<Suit>)
    requires l != [] && CountNonIncreasing(s, l)
    ensures CountNonIncreasing(s, l[1..])
    ensures forall y :: y in l ==> SuitCount(s, l[0]) >= SuitCount(s, y)
  {
    var t := l[1..];
    forall i, j | 0 <= i < j < |t| ensures SuitCount(s, t[i]) >= SuitCount(s, t[j]) {
      assert t[i] == l[i + 1] && t[j] == l[j + 1];
    }
    forall y | y in l ensures SuitCount(s, l[0]) >= SuitCount(s, y) {
      var k :| 0 <= k < |l| && l[k] == y;
    }
  }

  /** The front of a count-sorted list is sorted, and its last element has the smallest count. */
  lemma SortedLast(s: seq<Card>, l: seq<Suit>)
    requires l != [] && CountNonIncreasing(s, l)
    ensures CountNonIncreasing(s, l[..|l| - 1])
    ensures forall y :: y in l ==> SuitCount(s, y) >= SuitCount(s, l[|l| - 1])
  {
    var t := l[..|l| - 1];
    forall i, j | 0 <= i < j < |t| ensures SuitCount(s, t[i]) >= SuitCount(s, t[j]) {
      assert t[i] == l[i] && t[j] == l[j];
    }
    forall y | y in l ensures SuitCount(s, y) >= SuitCount(s, l[|l| - 1]) {
      var k :| 0 <= k < |l| && l[k] == y;
    }
  }

  /** A suit counted at least as often as every suit of a sorted list may go in front of it. */
  lemma ConsSorted(s: seq<Card>, a: Suit, r: seq<Suit>)
    requires CountNonIncreasing(s, r)
    requires forall y :: y in r ==> SuitCount(s, a) >= SuitCount(s, y)
    ensures CountNonIncreasing(s, [a] + r)
  {
    var r' := [a] + r;
    forall i, j | 0 <= i < j < |r'| ensures SuitCount(s, r'[i]) >= SuitCount(s, r'[j]) {
      assert r'[j] == r[j - 1];
      if i == 0 {
        assert r[j - 1] in r;
      } else {
        assert r'[i] == r[i - 1];
      }
    }
  }

  /** A suit counted at most as often as every suit of a sorted list may go after it. */
  lemma SnocSorted(s: seq<Card>, r: seq<Suit>, a: Suit)
    requires CountNonIncreasing(s, r)
    requires forall y :: y in r ==> SuitCount(s, y) >= SuitCount(s, a)
    ensures CountNonIncreasing(s, r + [a])
  {
    var r' := r + [a];
    forall i, j | 0 <= i < j < |r'| ensures SuitCount(s, r'[i]) >= SuitCount(s, r'[j]) {
      assert r'[i] == r[i];
      if j == |r| {
        assert r[i] in r;
      } else {
        assert r'[j] == r[j];
      }
    }
  }

  lemma {:induction false} InsertByCountSorted(s: seq<Card>, x: Suit, l: seq<Suit>)
    requires CountNonIncreasing(s, l)
    ensures CountNonIncreasing(s, InsertByCount(s, x, l))
  {
    if l != [] {
      SortedHead(s, l);
      if SuitCount(s, l[0]) >= SuitCount(s, x) {
        var t := l[1..];
        InsertByCountSorted(s, x, t);
        var r := InsertByCount(s, x, t);
        assert forall y :: y in r ==> y in t || y == x;
        assert forall y :: y in t ==> y in l;
        ConsSorted(s, l[0], r);
      } else {
        ConsSorted(s, x, l);
      }
    }
  }

  /** A stable sort by descending count, as sorted(..., reverse=True) does. */
  function SortByCount(s: seq<Card>, l: seq<Suit>): (r: seq<Suit>)
    ensures |r| == |l|
    ensures forall y :: y in r <==> y in l
  {
    if l == [] then []
    else
      var init := l[..|l| - 1];
      assert l == init + [l[|l| - 1]];
      InsertByCount(s, l[|l| - 1], SortByCount(s, init))
  }

  lemma {:induction false} SortByCountSpec(s: seq<Card>, l: seq<Suit>)
    ensures Distinct(l) ==> Distinct(SortByCount(s, l))
    ensures CountNonIncreasing(s, SortByCount(s, l))
  {
    if l != [] {
      var init := l[..|l| - 1];
      assert l == init + [l[|l| - 1]];
      assert forall k :: 0 <= k < |init| ==> init[k] == l[k];
      SortByCountSpec(s, init);
      var sorted := SortByCount(s, init);
      InsertByCountSorted(s, l[|l| - 1], sorted);
      if Distinct(l) {
        assert l[|l| - 1] !in init;
        InsertByCountDistinct(s, l[|l| - 1], sorted);
      }
    }
  }

  /** Counter.most_common(): present suits by descending count, ties by first appearance. */
  function MostCommon(s: seq<Card>): (r: seq<Suit>)
    ensures forall su :: su in r <==> SuitCount(s, su) >= 1
  {
    SortByCount(s, SuitsInOrder(s))
  }

  lemma MostCommonSpec(s: seq<Card>)
    ensures Distinct(MostCommon(s)) && CountNonIncreasing(s, MostCommon(s))
  {
    SortByCountSpec(s, SuitsInOrder(s));
  }

  /** The whole-suit results for the suits of `order` whose count lies in [lo, hi]. */
  function FlushesOf(s: seq<Card>, order: seq<Suit>, lo: int, hi: int): seq<seq<Card>> {
    if order == [] then []
    else
      var su := order[|order| - 1];
      FlushesOf(s, order[..|order| - 1], lo, hi)
        + (if hi >= SuitCount(s, su) >= lo then [OfSuit(s, su)] else [])
  }

  /** The suits of `order` whose count lies in [lo, hi], in order. */
  function SelectSuits(s: seq<Card>, order: seq<Suit>, lo: int, hi: int): (sel: seq<Suit>)
    ensures forall su :: su in sel <==> su in order && lo <= SuitCount(s, su) <= hi
  {
    if order == [] then []
    else
      var init := order[..|order| - 1];
      var su := order[|order| - 1];
      assert order == init + [su];
      SelectSuits(s, init, lo, hi) + (if hi >= SuitCount(s, su) >= lo then [su] else [])
  }

  lemma {:induction false} FlushesOfSelect(s: seq<Card>, order: seq<Suit>, lo: int, hi: int)
    ensures |FlushesOf(s, order, lo, hi)| == |SelectSuits(s, order, lo, hi)|
    ensures forall i :: 0 <= i < |FlushesOf(s, order, lo, hi)| ==>
      FlushesOf(s, order, lo, hi)[i] == OfSuit(s, SelectSuits(s, order, lo, hi)[i])
  {
    if order != [] {
      var init := order[..|order| - 1];
      assert order == init + [order[|order| - 1]];
      FlushesOfSelect(s, init, lo, hi);
    }
  }

  lemma {:induction false} SelectSuitsDistinct(s: seq<Card>, order: seq<Suit>, lo: int, hi: int)
    requires Distinct(order)
    ensures Distinct(SelectSuits(s, order, lo, hi))
  {
    if order != [] {
      var init := order[..|order| - 1];
      var su := order[|order| - 1];
      assert order == init + [su];
      assert forall k :: 0 <= k < |init| ==> init[k] == order[k];
      SelectSuitsDistinct(s, init, lo, hi);
      assert su !in init;
    }
  }

  lemma {:induction false} SelectSuitsSorted(s: seq<Card>, order: seq<Suit>, lo: int, hi: int)
    requires CountNonIncreasing(s, order)
    ensures CountNonIncreasing(s, SelectSuits(s, order, lo, hi))
  {
    if order != [] {
      var init := order[..|order| - 1];
      var su := order[|order| - 1];
      SortedLast(s, order);
      SelectSuitsSorted(s, init, lo, hi);
      var sel := SelectSuits(s, init, lo, hi);
      if hi >= SuitCount(s, su) >= lo {
        assert forall y :: y in sel ==> y in init;
        assert forall y :: y in init ==> y in order;
        SnocSorted(s, sel, su);
      }
    }
  }

  /** Cards.get_flushes. */
  function Flushes(s: seq<Card>, lo: int, hi: int): seq<seq<Card>> {
    FlushesOf(s, MostCommon(s), lo, hi)
  }

  /** The suits get_flushes reports, in the order it reports them. */
  function FlushSuits(s: seq<Card>, lo: int, hi: int): seq<Suit> {
    SelectSuits(s, MostCommon(s), lo, hi)
  }

  /** Cards.contains_flush. */
  function ContainsFlush(s: seq<Card>, n: int): bool {
    Flushes(s, n, n) != []
  }

  /**
   * get_flushes yields one result per suit whose count lies in [lo, hi] and
   * occurs at all; the result is every card of that suit in its original
   * order (never a sub-flush), and results come by non-increasing size.
   */
  lemma FlushesSpec(s: seq<Card>, lo: int, hi: int)
    ensures var f := Flushes(s, lo, hi); var sel := FlushSuits(s, lo, hi);
      && |f| == |sel| && Distinct(sel)
      && (forall i :: 0 <= i < |f| ==> f[i] == OfSuit(s, sel[i]))
      && (forall su :: su in sel <==> 1 <= SuitCount(s, su) && lo <= SuitCount(s, su) <= hi)
      && (forall i, j :: 0 <= i < j < |f| ==> |f[i]| >= |f[j]|)
  {
    MostCommonSpec(s);
    FlushesOfSelect(s, MostCommon(s), lo, hi);
    SelectSuitsDistinct(s, MostCommon(s), lo, hi);
    SelectSuitsSorted(s, MostCommon(s), lo, hi);
  }

  /** contains_flush(n) holds exactly when some suit occurs exactly n times (n >= 1). */
  lemma ContainsFlushIff(s: seq<Card>, n: int)
    ensures ContainsFlush(s, n) <==> 1 <= n && exists su :: SuitCount(s, su) == n
  {
    FlushesSpec(s, n, n);
    var sel := FlushSuits(s, n, n);
    if Flushes(s, n, n) != [] {
      assert sel[0] in sel;
    }
    if 1 <= n && exists su :: SuitCount(s, su) == n {
      var su :| SuitCount(s, su) == n;
      assert su in sel;
    }
  }

  // ---------------------------------------------------------------------
  // Straights: grouping by rank, maximal runs, Cartesian products
  // ---------------------------------------------------------------------

  /** The cards of rank `rank`, in their original order (val_to_cards[rank]). */
  function OfRank(s: seq<Card>, rank: Rank): (r: seq<Card>)
    ensures |r| <= |s|
    ensures forall k :: 0 <= k < |r| ==> r[k].rank == rank && r[k] in s
    ensures r != [] <==> exists k :: 0 <= k < |s| && s[k].rank == rank
  {
    if s == [] then []
    else
      assert s == [s[0]] + s[1..];
      (if s[0].rank == rank then [s[0]] else []) + OfRank(s[1..], rank)
  }

  /** Appending a card extends exactly the group of its rank. */
  lemma {:induction false} OfRankSnoc(s: seq<Card>, c: Card, rank: Rank)
    ensures OfRank(s + [c], rank) == OfRank(s, rank) + (if c.rank == rank then [c] else [])
  {
    if s != [] {
      var t := s + [c];
      assert t[0] == s[0] && t[1..] == s[1..] + [c];
      OfRankSnoc(s[1..], c, rank);
      var h := if s[0].rank == rank then [s[0]] else [];
      var e := if c.rank == rank then [c] else [];
      assert OfRank(t, rank) == h + OfRank(t[1..], rank);
      assert OfRank(s, rank) == h + OfRank(s[1..], rank);
      assert h + (OfRank(s[1..], rank) + e) == (h + OfRank(s[1..], rank)) + e;
    }
  }

  /** Some card of `s` has rank `r`. */
  predicate Present(s: seq<Card>, r: int) {
    exists k :: 0 <= k < |s| && s[k].rank == r
  }

  ghost predicate Increasing(v: seq<int>) {
    forall i, j :: 0 <= i < j < |v| ==> v[i] < v[j]
  }

  /** The ranks below `k` that occur in `s`, ascending. */
  function RanksBelow(s: seq<Card>, k: nat): (v: seq<Rank>)
    requires k <= 13
    ensures Increasing(v)
    ensures forall i :: 0 <= i < |v| ==> v[i] < k
  {
    if k == 0 then []
    else
      var prev := RanksBelow(s, k - 1);
      if Present(s, k - 1) then
        IncreasingBelow(prev, k - 1);
        prev + [k - 1]
      else prev
  }

  /** A value above every element of an increasing sequence extends it, and bounds it. */
  lemma IncreasingBelow(v: seq<int>, x: int)
    requires Increasing(v) && forall i :: 0 <= i < |v| ==> v[i] < x
    ensures Increasing(v + [x])
    ensures forall i :: 0 <= i < |v| + 1 ==> (v + [x])[i] <= x
  {
    var v' := v + [x];
    forall i, j | 0 <= i < j < |v'| ensures v'[i] < v'[j] {
      assert v'[i] == v[i];
      if j < |v| {
        assert v'[j] == v[j];
      }
    }
    forall i | 0 <= i < |v'| ensures v'[i] <= x {
      if i < |v| {
        assert v'[i] == v[i];
      }
    }
  }

  /** A rank is listed exactly when it lies below `k` and occurs in `s`. */
  lemma {:induction false} RanksBelowHas(s: seq<Card>, k: nat, r: int)
    requires k <= 13
    ensures r in RanksBelow(s, k) <==> 0 <= r < k && Present(s, r)
  {
    if k > 0 {
      RanksBelowHas(s, k - 1, r);
      var prev := RanksBelow(s, k - 1);
      if Present(s, k - 1) {
        assert RanksBelow(s, k) == prev + [k - 1];
        assert r in prev + [k - 1] <==> r in prev || r == k - 1;
      }
    }
  }

  /** np.sort(list(val_to_cards)): the distinct ranks of `s`, ascending. */
  function RanksPresent(s: seq<Card>): (v: seq<Rank>)
    ensures forall r: int :: r in v <==> Present(s, r)
    ensures Increasing(v)
    ensures s != [] ==> |v| >= 1
  {
    var v := RanksBelow(s, 13);
    forall r: int ensures r in v <==> Present(s, r) {
      RanksBelowHas(s, 13, r);
    }
    assert s != [] ==> Present(s, s[0].rank);
    v
  }

  /** `R` is non-empty and climbs by exactly one from its first element. */
  ghost predicate Consecutive(R: seq<int>) {
    |R| >= 1 && forall k :: 0 <= k < |R| ==> R[k] == R[0] + k
  }

  /** Neither the value below the first element of `R` nor the one above its last occurs in `v`. */
  ghost predicate Isolated(R: seq<int>, v: seq<int>) {
    |R| >= 1 && R[0] - 1 !in v && R[|R| - 1] + 1 !in v
  }

  /**
   * The run-splitting loop after scanning `v`: the runs closed so far and
   * the current run, extended while the difference to the previous
   * value is 1 and restarted otherwise.
   */
  function RunsAcc(v: seq<Rank>): (r: (seq<seq<Rank>>, seq<Rank>))
    requires |v| >= 1
    ensures |r.1| >= 1
  {
    if |v| == 1 then ([], [v[0]])
    else
      var acc := RunsAcc(v[..|v| - 1]);
      var x := v[|v| - 1];
      if x as int - v[|v| - 2] as int == 1 then (acc.0, acc.1 + [x]) else (acc.0 + [acc.1], [x])
  }

  /** The runs of `v`: the closed runs followed by the last current run. */
  function Runs(v: seq<Rank>): (runs: seq<seq<Rank>>)
    requires |v| >= 1
    ensures |runs| >= 1
  {
    RunsAcc(v).0 + [RunsAcc(v).1]
  }

  /** The current run `c` is consecutive, ends at the last value of `v`, and no value of `v` sits just below it. */
  ghost predicate CurrentRun(v: seq<int>, c: seq<int>) {
    |v| >= 1 && Consecutive(c) && c[|c| - 1] == v[|v| - 1] && c[0] - 1 !in v
  }

  /** Every closed run is consecutive and isolated within `v`. */
  ghost predicate ClosedRuns(v: seq<int>, d: seq<seq<int>>) {
    forall i :: 0 <= i < |d| ==> Consecutive(d[i]) && Isolated(d[i], v)
  }

  /** Every value of a closed run lies below the start of the current run. */
  ghost predicate ClosedBelow(d: seq<seq<int>>, c: seq<int>) {
    |c| >= 1 && forall i, y :: 0 <= i < |d| && y in d[i] ==> y < c[0]
  }

  /** The values of `v` are exactly those of the current run and the closed runs. */
  ghost predicate Covers(v: seq<int>, d: seq<seq<int>>, c: seq<int>) {
    forall y :: y in v <==> y in c || exists i :: 0 <= i < |d| && y in d[i]
  }

  /** What the run-splitting loop keeps true of the closed runs `d` and current run `c` over `v`. */
  ghost predicate RunsInv(v: seq<int>, d: seq<seq<int>>, c: seq<int>) {
    && |v| >= 1 && Increasing(v)
    && CurrentRun(v, c) && ClosedRuns(v, d) && ClosedBelow(d, c) && Covers(v, d, c)
  }

  /** Every value of an ascending `v` is at most its last. */
  lemma AtMostLast(v: seq<int>)
    requires |v| >= 1 && Increasing(v)
    ensures forall y :: y in v ==> y <= v[|v| - 1]
  {
    forall y | y in v ensures y <= v[|v| - 1] {
      var k :| 0 <= k < |v| && v[k] == y;
    }
  }

  /** Appending a value above the last keeps `v` ascending. */
  lemma IncreasingSnoc(v: seq<int>, x: int)
    requires |v| >= 1 && Increasing(v) && x > v[|v| - 1]
    ensures Increasing(v + [x]) && forall y :: y in v + [x] <==> y in v || y == x
  {
    AtMostLast(v);
    var v' := v + [x];
    forall i, j | 0 <= i < j < |v'| ensures v'[i] < v'[j] {
      assert v'[i] == v[i];
      if j < |v| {
        assert v'[j] == v[j];
      } else {
        assert v[i] in v;
      }
    }
  }

  /** The current run starts no later than the last value, and closed runs end before it. */
  lemma RunBounds(v: seq<int>, d: seq<seq<int>>, c: seq<int>)
    requires CurrentRun(v, c) && ClosedBelow(d, c)
    ensures c[0] <= v[|v| - 1]
    ensures forall i :: 0 <= i < |d| ==> |d[i]| >= 1 ==> d[i][0] < c[0] && d[i][|d[i]| - 1] < c[0]
  {
    assert c[|c| - 1] == c[0] + |c| - 1;
    forall i | 0 <= i < |d| && |d[i]| >= 1
      ensures d[i][0] < c[0] && d[i][|d[i]| - 1] < c[0]
    {
      assert d[i][0] in d[i] && d[i][|d[i]| - 1] in d[i];
    }
  }

  /** Extending the current run by the next consecutive value keeps the invariant. */
  lemma RunsExtend(v: seq<int>, d: seq<seq<int>>, c: seq<int>, x: int)
    requires RunsInv(v, d, c) && x == v[|v| - 1] + 1
    ensures RunsInv(v + [x], d, c + [x])
  {
    var v', c' := v + [x], c + [x];
    IncreasingSnoc(v, x);
    RunBounds(v, d, c);
    assert Consecutive(c') by {
      assert c[|c| - 1] == c[0] + |c| - 1;
      assert forall k :: 0 <= k < |c| ==> c'[k] == c[k];
    }
    assert CurrentRun(v', c');
    forall i | 0 <= i < |d| ensures Isolated(d[i], v') {
      assert d[i][|d[i]| - 1] < c[0];
    }
    assert ClosedRuns(v', d);
    assert ClosedBelow(d, c');
    assert forall y :: y in c' <==> y in c || y == x;
    assert Covers(v', d, c');
  }

  /** Closing the current run keeps every closed run isolated in the extended values. */
  lemma RestartClosed(v: seq<int>, d: seq<seq<int>>, c: seq<int>, x: int)
    requires RunsInv(v, d, c) && x > v[|v| - 1] + 1
    ensures ClosedRuns(v + [x], d + [c])
  {
    var v', d' := v + [x], d + [c];
    IncreasingSnoc(v, x);
    AtMostLast(v);
    RunBounds(v, d, c);
    forall i | 0 <= i < |d'| ensures Consecutive(d'[i]) && Isolated(d'[i], v') {
      if i < |d| {
        assert d'[i] == d[i];
        assert Isolated(d[i], v);
      } else {
        assert d'[i] == c;
        assert c[|c| - 1] + 1 !in v;
      }
    }
  }

  /** Closing the current run keeps the values covered and the closed runs below the new one. */
  lemma RestartCovers(v: seq<int>, d: seq<seq<int>>, c: seq<int>, x: int)
    requires RunsInv(v, d, c) && x > v[|v| - 1] + 1
    ensures Covers(v + [x], d + [c], [x]) && ClosedBelow(d + [c], [x])
  {
    var v', d' := v + [x], d + [c];
    IncreasingSnoc(v, x);
    AtMostLast(v);
    forall y
      ensures (y in c || exists i :: 0 <= i < |d| && y in d[i]) <==> exists i :: 0 <= i < |d'| && y in d'[i]
    {
      if y in c {
        assert y in d'[|d|];
      }
      if exists i :: 0 <= i < |d| && y in d[i] {
        var i :| 0 <= i < |d| && y in d[i];
        assert y in d'[i];
      }
      if exists i :: 0 <= i < |d'| && y in d'[i] {
        var i :| 0 <= i < |d'| && y in d'[i];
        if i < |d| {
          assert d'[i] == d[i];
        }
      }
    }
    forall i, y | 0 <= i < |d'| && y in d'[i]
      ensures y < x
    {
      assert y in v;
    }
  }

  /** Closing the current run and starting a new one at a non-consecutive value keeps the invariant. */
  lemma RunsRestart(v: seq<int>, d: seq<seq<int>>, c: seq<int>, x: int)
    requires RunsInv(v, d, c) && x > v[|v| - 1] + 1
    ensures RunsInv(v + [x], d + [c], [x])
  {
    IncreasingSnoc(v, x);
    AtMostLast(v);
    RestartClosed(v, d, c, x);
    RestartCovers(v, d, c, x);
    assert CurrentRun(v + [x], [x]);
  }

  lemma {:induction false} RunsAccSpec(v: seq<Rank>)
    requires |v| >= 1 && Increasing(v)
    ensures RunsInv(v, RunsAcc(v).0, RunsAcc(v).1)
  {
    if |v| > 1 {
      var w, x := v[..|v| - 1], v[|v| - 1];
      IncreasingPrefix(v);
      assert v == w + [x];
      RunsAccSpec(w);
      var d, c := RunsAcc(w).0, RunsAcc(w).1;
      assert v[|v| - 2] == w[|w| - 1];
      if x as int - v[|v| - 2] as int == 1 {
        assert RunsAcc(v) == (d, c + [x]);
        RunsExtend(w, d, c, x);
      } else {
        assert RunsAcc(v) == (d + [c], [x]);
        RunsRestart(w, d, c, x);
      }
    }
  }

  /** Dropping the last element keeps a sequence increasing. */
  lemma IncreasingPrefix(v: seq<int>)
    requires |v| >= 1 && Increasing(v)
    ensures Increasing(v[..|v| - 1])
  {
    var w := v[..|v| - 1];
    forall i, j | 0 <= i < j < |w| ensures w[i] < w[j] {
      assert w[i] == v[i] && w[j] == v[j];
    }
  }

  /**
   * The runs partition the values of an ascending `v` into blocks of
   * consecutive values, each of which no value of `v` extends on either side.
   */
  lemma RunsSpec(v: seq<Rank>)
    requires |v| >= 1 && Increasing(v)
    ensures var runs := Runs(v);
      && (forall y: int :: y in v <==> exists i :: 0 <= i < |runs| && y in runs[i])
      && (forall i :: 0 <= i < |runs| ==> Consecutive(runs[i]) && Isolated(runs[i], v))
  {
    RunsAccSpec(v);
    var d, c := RunsAcc(v).0, RunsAcc(v).1;
    var runs := Runs(v);
    assert runs == d + [c];
    AtMostLast(v);
    assert Isolated(c, v);
    forall i | 0 <= i < |runs| ensures Consecutive(runs[i]) && Isolated(runs[i], v) {
      if i < |d| {
        assert runs[i] == d[i];
      }
    }
    forall y: int ensures y in v <==> exists i :: 0 <= i < |runs| && y in runs[i] {
      if y in c {
        assert y in runs[|d|];
      }
      if exists i :: 0 <= i < |d| && y in d[i] {
        var i :| 0 <= i < |d| && y in d[i];
        assert y in runs[i];
      }
      if exists i :: 0 <= i < |runs| && y in runs[i] {
        var i :| 0 <= i < |runs| && y in runs[i];
        if i < |d| {
          assert runs[i] == d[i];
        }
      }
    }
  }

  /**
   * Ranks `a` .. `a + n - 1` all occur in `s`, and neither `a - 1` nor
   * `a + n` does: a straight that cannot be extended.
   */
  ghost predicate IsMaximalBlock(s: seq<Card>, a: int, n: int) {
    && n >= 1
    && (forall r :: a <= r < a + n ==> Present(s, r))
    && !Present(s, a - 1)
    && !Present(s, a + n)
  }

  /** Every run of the ranks of `s` is a maximal block. */
  lemma RunIsMaximalBlock(s: seq<Card>, i: int)
    requires s != []
    requires 0 <= i < |Runs(RanksPresent(s))|
    ensures var R := Runs(RanksPresent(s))[i];
      Consecutive(R) && IsMaximalBlock(s, R[0], |R|)
  {
    var v := RanksPresent(s);
    RunsSpec(v);
    var R := Runs(v)[i];
    forall r | R[0] <= r < R[0] + |R|
      ensures Present(s, r)
    {
      assert R[r - R[0]] == r;
      assert r in v;
    }
    assert R[|R| - 1] == R[0] + |R| - 1;
  }

  /** Over values `v` cut into isolated consecutive runs, a maximal block of `v` is one of the runs. */
  lemma BlockIsRun(v: seq<int>, runs: seq<seq<int>>, a: int, n: int) returns (i: nat)
    requires forall y :: y in v <==> exists i :: 0 <= i < |runs| && y in runs[i]
    requires forall i :: 0 <= i < |runs| ==> Consecutive(runs[i]) && Isolated(runs[i], v)
    requires n >= 1 && (forall r :: a <= r < a + n ==> r in v) && a - 1 !in v && a + n !in v
    ensures i < |runs| && |runs[i]| == n && runs[i][0] == a
  {
    assert a in v;
    i :| 0 <= i < |runs| && a in runs[i];
    var R := runs[i];
    var k :| 0 <= k < |R| && R[k] == a;
    // The element before `a` in R, if any, and the element n places after it.
    var before := if k > 0 then k - 1 else k;
    var past := if |R| > n then n else 0;
    assert R[before] in R && R[past] in R;
    assert k == 0;
    assert |R| < n ==> a + |R| in v;
    assert |R| == n;
  }

  /** Every maximal block of ranks of `s` is one of its runs. */
  lemma MaximalBlockIsRun(s: seq<Card>, a: int, n: int) returns (i: nat)
    requires s != [] && IsMaximalBlock(s, a, n)
    ensures i < |Runs(RanksPresent(s))| &&
      |Runs(RanksPresent(s))[i]| == n && Runs(RanksPresent(s))[i][0] == a
  {
    var v := RanksPresent(s);
    RunsSpec(v);
    assert forall r :: a <= r < a + n ==> r in v;
    i := BlockIsRun(v, Runs(v), a, n);
  }

  /** Prefixes `a` to every tuple of `ps`. */
  function PrependAll(a: Card, ps: seq<seq<Card>>): (r: seq<seq<Card>>)
    ensures |r| == |ps|
  {
    seq(|ps|, i requires 0 <= i < |ps| => [a] + ps[i])
  }

  /** For each card of `g` in turn, that card in front of every tuple of `ps`. */
  function Expand(g: seq<Card>, ps: seq<seq<Card>>): seq<seq<Card>> {
    if g == [] then [] else PrependAll(g[0], ps) + Expand(g[1..], ps)
  }

  /** itertools.product over the groups `gs`: the last group varies fastest. */
  function Product(gs: seq<seq<Card>>): seq<seq<Card>> {
    if gs == [] then [[]] else Expand(gs[0], Product(gs[1..]))
  }

  /** The product of the group sizes. */
  function Multiplicity(gs: seq<seq<Card>>): nat {
    if gs == [] then 1 else |gs[0]| * Multiplicity(gs[1..])
  }

  lemma {:induction false} ExpandCount(g: seq<Card>, ps: seq<seq<Card>>)
    ensures |Expand(g, ps)| == |g| * |ps|
  {
    if g != [] {
      ExpandCount(g[1..], ps);
      assert |g| * |ps| == |ps| + (|g| - 1) * |ps|;
    }
  }

  lemma {:induction false} ExpandMember(g: seq<Card>, ps: seq<seq<Card>>, p: seq<Card>)
    ensures p in Expand(g, ps) <==> |p| >= 1 && p[0] in g && p[1..] in ps
  {
    if g != [] {
      ExpandMember(g[1..], ps, p);
      var pre := PrependAll(g[0], ps);
      if p in pre {
        var i :| 0 <= i < |pre| && pre[i] == p;
        assert p == [g[0]] + ps[i];
        assert p[1..] == ps[i];
      }
      if |p| >= 1 && p[0] == g[0] && p[1..] in ps {
        var i :| 0 <= i < |ps| && ps[i] == p[1..];
        assert p == [g[0]] + ps[i];
        assert pre[i] == p;
      }
      assert p in pre <==> |p| >= 1 && p[0] == g[0] && p[1..] in ps;
      assert g == [g[0]] + g[1..];
    }
  }

  /** The product has one tuple per choice of a card from every group. */
  lemma {:induction false} ProductCount(gs: seq<seq<Card>>)
    ensures |Product(gs)| == Multiplicity(gs)
  {
    if gs != [] {
      ProductCount(gs[1..]);
      ExpandCount(gs[0], Product(gs[1..]));
    }
  }

  /** The tuples of the product are exactly the picks of one card from each group, in group order. */
  lemma {:induction false} ProductMember(gs: seq<seq<Card>>, p: seq<Card>)
    ensures p in Product(gs) <==> |p| == |gs| && forall k :: 0 <= k < |gs| ==> p[k] in gs[k]
  {
    if gs == [] {
      assert p in Product(gs) <==> p == [];
    } else {
      ExpandMember(gs[0], Product(gs[1..]), p);
      if |p| >= 1 {
        ProductMember(gs[1..], p[1..]);
        if |p| == |gs| && (forall k :: 0 <= k < |gs| ==> p[k] in gs[k]) {
          assert forall k :: 0 <= k < |gs| - 1 ==> p[1..][k] == p[k + 1] && gs[1..][k] == gs[k + 1];
        }
        if p in Product(gs) {
          forall k | 0 <= k < |gs|
            ensures p[k] in gs[k]
          {
            if k > 0 {
              assert p[1..][k - 1] == p[k];
            }
          }
        }
      }
    }
  }

  /** The per-rank card groups of a run: [val_to_cards[val] for val in run]. */
  function Groups(s: seq<Card>, run: seq<Rank>): (gs: seq<seq<Card>>)
    ensures |gs| == |run|
  {
    seq(|run|, i requires 0 <= i < |run| => OfRank(s, run[i]))
  }

  /** The straights one run contributes: the product of its rank groups when its length lies in [lo, hi]. */
  function RunStraights(s: seq<Card>, R: seq<Rank>, lo: int, hi: int): seq<seq<Card>> {
    if lo <= |R| <= hi then Product(Groups(s, R)) else []
  }

  /** The concatenation of the first `n` blocks. */
  function Flatten<T>(bs: seq<seq<T>>, n: nat): seq<T>
    requires n <= |bs|
  {
    if n == 0 then [] else Flatten(bs, n - 1) + bs[n - 1]
  }

  /** An element of the concatenation belongs to one of the blocks, and conversely. */
  lemma {:induction false} FlattenMember<T>(bs: seq<seq<T>>, n: nat, p: T)
    requires n <= |bs|
    ensures p in Flatten(bs, n) <==> exists i :: 0 <= i < n && p in bs[i]
  {
    if n > 0 {
      FlattenMember(bs, n - 1, p);
      if p in bs[n - 1] {
        assert exists i :: 0 <= i < n && p in bs[i];
      }
    }
  }

  /** The straights of each run, run by run. */
  function RunBlocks(s: seq<Card>, runs: seq<seq<Rank>>, lo: int, hi: int): seq<seq<seq<Card>>> {
    seq(|runs|, i requires 0 <= i < |runs| => RunStraights(s, runs[i], lo, hi))
  }

  /** The expansions of the runs whose length lies in [lo, hi], in run order. */
  function StraightsOf(s: seq<Card>, runs: seq<seq<Rank>>, lo: int, hi: int): seq<seq<Card>> {
    Flatten(RunBlocks(s, runs, lo, hi), |runs|)
  }

  /** Cards.get_straights; on no cards at all the source fails indexing vals[0]. */
  function Straights(s: seq<Card>, lo: int, hi: int): (r: Result<seq<seq<Card>>>)
    ensures r.Err? <==> s == []
    ensures r.Err? ==> r.error == IndexError
  {
    if s == [] then Err(IndexError)
    else Ok(StraightsOf(s, Runs(RanksPresent(s)), lo, hi))
  }

  /** Cards.contains_straight. */
  function ContainsStraight(s: seq<Card>, n: int): (r: Result<bool>)
    ensures r.Err? <==> s == []
  {
    if s == [] then Err(IndexError) else Ok(Straights(s, n, n).value != [])
  }

  /** The number of straights one run contributes. */
  function RunMultiplicity(s: seq<Card>, R: seq<Rank>, lo: int, hi: int): nat {
    if lo <= |R| <= hi then Multiplicity(Groups(s, R)) else 0
  }

  /** The summed multiplicities of the first `n` runs. */
  function MultiplicityUpTo(s: seq<Card>, runs: seq<seq<Rank>>, n: nat, lo: int, hi: int): nat
    requires n <= |runs|
  {
    if n == 0 then 0 else MultiplicityUpTo(s, runs, n - 1, lo, hi) + RunMultiplicity(s, runs[n - 1], lo, hi)
  }

  /** The sum of the multiplicities of the runs whose length lies in [lo, hi]. */
  function RunsMultiplicity(s: seq<Card>, runs: seq<seq<Rank>>, lo: int, hi: int): nat {
    MultiplicityUpTo(s, runs, |runs|, lo, hi)
  }

  /** A tuple is among the straights exactly when some run in bounds expands to it. */
  lemma StraightsOfMember(s: seq<Card>, runs: seq<seq<Rank>>, lo: int, hi: int, p: seq<Card>)
    ensures p in StraightsOf(s, runs, lo, hi) <==>
      exists i :: 0 <= i < |runs| && lo <= |runs[i]| <= hi && p in Product(Groups(s, runs[i]))
  {
    var bs := RunBlocks(s, runs, lo, hi);
    FlattenMember(bs, |runs|, p);
    if p in StraightsOf(s, runs, lo, hi) {
      var i :| 0 <= i < |runs| && p in bs[i];
      assert bs[i] == RunStraights(s, runs[i], lo, hi);
    }
    if exists i :: 0 <= i < |runs| && lo <= |runs[i]| <= hi && p in Product(Groups(s, runs[i])) {
      var i :| 0 <= i < |runs| && lo <= |runs[i]| <= hi && p in Product(Groups(s, runs[i]));
      assert bs[i] == RunStraights(s, runs[i], lo, hi);
    }
  }

  lemma {:induction false} StraightsUpToCount(s: seq<Card>, runs: seq<seq<Rank>>, n: nat, lo: int, hi: int)
    requires n <= |runs|
    ensures |Flatten(RunBlocks(s, runs, lo, hi), n)| == MultiplicityUpTo(s, runs, n, lo, hi)
  {
    if n > 0 {
      StraightsUpToCount(s, runs, n - 1, lo, hi);
      RunStraightsCount(s, runs[n - 1], lo, hi);
      assert RunBlocks(s, runs, lo, hi)[n - 1] == RunStraights(s, runs[n - 1], lo, hi);
    }
  }

  lemma RunStraightsCount(s: seq<Card>, R: seq<Rank>, lo: int, hi: int)
    ensures |RunStraights(s, R, lo, hi)| == RunMultiplicity(s, R, lo, hi)
  {
    if lo <= |R| <= hi {
      ProductCount(Groups(s, R));
    }
  }

  /**
   * Every straight found has a length within [lo, hi], draws its cards
   * from `s`, climbs by exactly one rank per card (so never wraps from
   * King to Ace), and spans a maximal block of ranks, so a longer run is
   * never truncated into it.
   */
  lemma StraightsSound(s: seq<Card>, lo: int, hi: int, p: seq<Card>)
    requires s != [] && p in Straights(s, lo, hi).value
    ensures 1 <= |p| && lo <= |p| <= hi
    ensures forall k :: 0 <= k < |p| ==> p[k] in s && p[k].rank == p[0].rank + k
    ensures IsMaximalBlock(s, p[0].rank, |p|)
  {
    var runs := Runs(RanksPresent(s));
    StraightsOfMember(s, runs, lo, hi, p);
    var i :| 0 <= i < |runs| && lo <= |runs[i]| <= hi && p in Product(Groups(s, runs[i]));
    var R := runs[i];
    ProductMember(Groups(s, R), p);
    RunIsMaximalBlock(s, i);
    forall k | 0 <= k < |p|
      ensures p[k] in s && p[k].rank == R[k]
    {
      assert p[k] in OfRank(s, R[k]);
    }
  }

  /**
   * Conversely, every choice of one card per rank of a maximal block whose
   * length lies in [lo, hi] is among the straights found.
   */
  lemma StraightsComplete(s: seq<Card>, lo: int, hi: int, a: int, p: seq<Card>)
    requires s != [] && IsMaximalBlock(s, a, |p|) && lo <= |p| <= hi
    requires forall k :: 0 <= k < |p| ==> p[k] in s && p[k].rank == a + k
    ensures p in Straights(s, lo, hi).value
  {
    var runs := Runs(RanksPresent(s));
    var i := MaximalBlockIsRun(s, a, |p|);
    var R := runs[i];
    RunIsMaximalBlock(s, i);
    var gs := Groups(s, R);
    forall k | 0 <= k < |p|
      ensures p[k] in gs[k]
    {
      OfRankComplete(s, R[k], p[k]);
    }
    ProductMember(gs, p);
    StraightsOfMember(s, runs, lo, hi, p);
  }

  lemma {:induction false} OfRankComplete(s: seq<Card>, rank: Rank, c: Card)
    requires c in s && c.rank == rank
    ensures c in OfRank(s, rank)
  {
    assert s == [s[0]] + s[1..];
    if s[0] != c {
      OfRankComplete(s[1..], rank, c);
    }
  }

  /** The number of straights found is the summed multiplicity of the qualifying runs. */
  lemma StraightsCount(s: seq<Card>, lo: int, hi: int)
    requires s != []
    ensures |Straights(s, lo, hi).value| == RunsMultiplicity(s, Runs(RanksPresent(s)), lo, hi)
  {
    var runs := Runs(RanksPresent(s));
    StraightsUpToCount(s, runs, |runs|, lo, hi);
  }

  /**
   * contains_straight(n) holds exactly when the ranks of `s` have a maximal
   * block of length n; with no cards it fails as get_straights does.
   */
  lemma ContainsStraightIff(s: seq<Card>, n: int)
    ensures s == [] ==> ContainsStraight(s, n) == Err(IndexError)
    ensures s != [] ==> (ContainsStraight(s, n) == Ok(true) <==> exists a :: IsMaximalBlock(s, a, n))
  {
    if s != [] {
      assert ContainsStraight(s, n) == Ok(Straights(s, n, n).value != []);
      if Straights(s, n, n).value != [] {
        StraightFoundIsBlock(s, n);
      }
      if exists a :: IsMaximalBlock(s, a, n) {
        var a :| IsMaximalBlock(s, a, n);
        MaximalBlockStraight(s, a, n, n, n);
      }
    }
  }

  /** A straight of length exactly n spans a maximal block of n ranks. */
  lemma StraightFoundIsBlock(s: seq<Card>, n: int)
    requires s != [] && Straights(s, n, n).value != []
    ensures exists a :: IsMaximalBlock(s, a, n)
  {
    var f := Straights(s, n, n).value;
    var p := f[0];
    assert p in f;
    StraightsSound(s, n, n, p);
    assert IsMaximalBlock(s, p[0].rank, n);
  }

  /** Some card of a rank that occurs in `s`. */
  ghost function PickOfRank(s: seq<Card>, r: int): (c: Card)
    requires Present(s, r)
    ensures c in s && c.rank == r
  {
    var k :| 0 <= k < |s| && s[k].rank == r;
    s[k]
  }

  /** A maximal block whose length n lies in [lo, hi] yields a straight. */
  lemma MaximalBlockStraight(s: seq<Card>, a: int, n: int, lo: int, hi: int)
    requires s != [] && IsMaximalBlock(s, a, n) && lo <= n <= hi
    ensures Straights(s, lo, hi).value != []
  {
    var p := seq(n, k requires 0 <= k < n => PickOfRank(s, a + k));
    forall k | 0 <= k < n
      ensures p[k] in s && p[k].rank == a + k
    {
      assert Present(s, a + k);
      assert p[k] == PickOfRank(s, a + k);
    }
    StraightsComplete(s, lo, hi, a, p);
  }
}
