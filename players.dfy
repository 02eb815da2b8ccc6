/**
 * Players and groups of players (pycards/players.py): the dealer flag,
 * its lookup, assignment and rotation, and the cyclic turn order that
 * starts with the seat after the dealer.
 */
module Players {
  import opened Wrappers
  import opened Cards

  class Player {
    var isDealer: bool
    const name: string
    const seatPosition: int
    var hand: seq<Card>
    var score: int
    /** The copy of the hand that the newer engine plays out while pegging. */
    var peggingHand: seq<Card>

    /** Each player starts with a hand of its own and no points. */
    constructor (isDealer: bool, name: string, seatPosition: int)
      ensures this.isDealer == isDealer && this.name == name && this.seatPosition == seatPosition
      ensures hand == [] && score == 0 && peggingHand == []
    {
      this.isDealer := isDealer;
      this.name := name;
      this.seatPosition := seatPosition;
      hand := [];
      score := 0;
      peggingHand := [];
    }
  }

  /** The first seat whose dealer flag is set, if any. */
  function FirstDealer(flags: seq<bool>): (r: Option<nat>)
    ensures r.None? <==> forall i :: 0 <= i < |flags| ==> !flags[i]
    ensures r.Some? ==> r.value < |flags| && flags[r.value]
    ensures r.Some? ==> forall i :: 0 <= i < r.value ==> !flags[i]
  {
    if flags == [] then None
    else if flags[0] then Some(0)
    else
      match FirstDealer(flags[1..])
      case None => None
      case Some(k) => Some(k + 1)
  }

  /** Seat `k` holds the only dealer flag. */
  ghost predicate OnlyDealer(flags: seq<bool>, k: int) {
    0 <= k < |flags| && forall i :: 0 <= i < |flags| ==> flags[i] == (i == k)
  }

  /** _permute_dealer on the flags: the first dealer flag moves one seat on, cyclically. */
  function Permuted(flags: seq<bool>): (r: seq<bool>)
    ensures |r| == |flags|
  {
    var f := FirstDealer(flags);
    if f.None? then flags else MoveFlag(flags, f.value, NextSeat(f.value, |flags|))
  }

  /** The seat after seat k of n, cyclically. */
  function NextSeat(k: nat, n: nat): (r: nat)
    requires k < n
    ensures r < n
  {
    if k + 1 == n then 0 else k + 1
  }

  /** NextSeat is (k + 1) % n. */
  lemma NextSeatMod(k: nat, n: nat)
    requires k < n
    ensures NextSeat(k, n) == (k + 1) % n
  {
    if k + 1 == n {
      ModUnique(k + 1, n, 1, 0);
    } else {
      ModUnique(k + 1, n, 0, k + 1);
    }
  }

  /** The flags with seat `from` cleared and then seat `to` set. */
  function MoveFlag(flags: seq<bool>, from: nat, to: nat): (r: seq<bool>)
    requires from < |flags| && to < |flags|
    ensures |r| == |flags| && r[to]
    ensures forall i :: 0 <= i < |flags| && i != to ==> r[i] == (flags[i] && i != from)
  {
    flags[from := false][to := true]
  }

  /** With exactly one dealer, rotation hands the flag to the next seat, and with two or more seats the old dealer loses it. */
  lemma PermutedMoves(flags: seq<bool>, k: int)
    requires OnlyDealer(flags, k)
    ensures OnlyDealer(Permuted(flags), (k + 1) % |flags|)
    ensures |flags| >= 2 ==> !Permuted(flags)[k]
  {
    var f := FirstDealer(flags);
    assert f.Some? by { assert flags[k]; }
    assert f.value == k by { assert flags[f.value]; }
    var n := |flags|;
    if k + 1 < n {
      ModUnique(k + 1, n, 0, k + 1);
    } else {
      ModUnique(k + 1, n, 1, 0);
    }
  }

  lemma PermutedAt(flags: seq<bool>, k: nat)
    requires FirstDealer(flags) == Some(k)
    ensures Permuted(flags) == MoveFlag(flags, k, (k + 1) % |flags|)
  {
    NextSeatMod(k, |flags|);
  }

  /** `m` successive rotations. */
  function PermutedTimes(flags: seq<bool>, m: nat): (r: seq<bool>)
    ensures |r| == |flags|
  {
    if m == 0 then flags else Permuted(PermutedTimes(flags, m - 1))
  }

  /** After m rotations the only dealer sits m seats on. */
  lemma {:induction false} PermutedTimesMoves(flags: seq<bool>, k: int, m: nat)
    requires OnlyDealer(flags, k)
    ensures OnlyDealer(PermutedTimes(flags, m), (k + m) % |flags|)
  {
    if m == 0 {
      ModUnique(k, |flags|, 0, k);
    } else {
      var prev := PermutedTimes(flags, m - 1);
      assert |prev| == |flags| && PermutedTimes(flags, m) == Permuted(prev);
      PermutedTimesMoves(flags, k, m - 1);
      PermutedStep(prev, k + (m - 1));
    }
  }

  /** One more rotation moves the only dealer from a seat congruent to `a` to one congruent to a + 1. */
  lemma PermutedStep(flags: seq<bool>, a: int)
    requires |flags| >= 1 && OnlyDealer(flags, a % |flags|)
    ensures OnlyDealer(Permuted(flags), (a + 1) % |flags|)
  {
    PermutedMoves(flags, a % |flags|);
    ModSucc(a, |flags|);
  }

  lemma MulSign(n: int, m: int)
    requires n > 0
    ensures m >= 1 ==> n * m >= n
    ensures m <= -1 ==> n * m <= -n
  {
    assert n * m == n + n * (m - 1);
    assert n * m == -n + n * (m + 1);
  }

  lemma MulZero(n: int, m: int)
    requires n > 0 && -n < n * m < n
    ensures m == 0
  {
    MulSign(n, m);
  }

  /** The remainder is the unique r in [0, n) with x == n * q + r. */
  lemma ModUnique(x: int, n: int, q: int, r: int)
    requires n > 0 && 0 <= r < n && x == n * q + r
    ensures x % n == r
  {
    var q', r' := x / n, x % n;
    assert x == n * q' + r';
    assert n * (q - q') == r' - r;
    MulZero(n, q - q');
  }

  lemma ModSucc(a: int, n: int)
    requires n >= 1
    ensures (a % n + 1) % n == (a + 1) % n
  {
    var q, r := a / n, a % n;
    assert a == n * q + r;
    if r + 1 < n {
      ModUnique(a + 1, n, q, r + 1);
      ModUnique(r + 1, n, 0, r + 1);
    } else {
      ModUnique(a + 1, n, q + 1, 0);
      ModUnique(r + 1, n, 1, 0);
    }
  }

  /** As many rotations as seats bring the dealer back, every other player unflagged. */
  lemma PermutedFullCircle(flags: seq<bool>, k: int)
    requires OnlyDealer(flags, k)
    ensures PermutedTimes(flags, |flags|) == flags
  {
    PermutedTimesMoves(flags, k, |flags|);
    ModUnique(k + |flags|, |flags|, 1, k);
    var r := PermutedTimes(flags, |flags|);
    assert forall i :: 0 <= i < |flags| ==> r[i] == flags[i];
  }

  /** The seat of the k-th player the order generator yields, for dealer seat d of n. */
  function Seat(d: nat, k: nat, n: nat): (s: nat)
    requires n >= 1
    ensures s < n
  {
    (d + k) % n
  }

  /**
   * The order generator yields the seat after the dealer first, repeats
   * with period n, and in its first n items visits every seat exactly
   * once, ending with the dealer.
   */
  lemma SeatOrder(d: nat, n: nat)
    requires d < n
    ensures Seat(d, 1, n) == (d + 1) % n
    ensures Seat(d, n, n) == d
    ensures forall k: nat :: Seat(d, k + n, n) == Seat(d, k, n)
    ensures forall k1, k2 :: 1 <= k1 < k2 <= n ==> Seat(d, k1, n) != Seat(d, k2, n)
    ensures forall j :: 0 <= j < n ==> SeatVisited(d, n, j)
  {
    ModUnique(d + n, n, 1, d);
    forall k: nat
      ensures Seat(d, k + n, n) == Seat(d, k, n)
    {
      ModUnique(d + k + n, n, (d + k) / n + 1, (d + k) % n);
    }
    forall k1, k2 | 1 <= k1 < k2 <= n
      ensures Seat(d, k1, n) != Seat(d, k2, n)
    {
      SeatWrap(d, k1, n);
      SeatWrap(d, k2, n);
    }
    forall j | 0 <= j < n
      ensures SeatVisited(d, n, j)
    {
      var k := if j > d then j - d else j - d + n;
      SeatWrap(d, k, n);
    }
  }

  /** Seat j is among the first n yielded. */
  ghost predicate SeatVisited(d: nat, n: nat, j: nat)
    requires n >= 1
  {
    exists k :: 1 <= k <= n && Seat(d, k, n) == j
  }

  /** Below two laps the modulus subtracts n at most once. */
  lemma SeatWrap(d: nat, k: nat, n: nat)
    requires d < n && k <= n
    ensures Seat(d, k, n) == if d + k < n then d + k else d + k - n
  {
    if d + k < n {
      ModUnique(d + k, n, 0, d + k);
    } else {
      ModUnique(d + k, n, 1, d + k - n);
    }
  }

  class PlayerGroup {
    const players: seq<Player>

    /** The group holds each player object once. */
    ghost predicate Valid()
      reads this
    {
      forall i, j :: 0 <= i < j < |players| ==> players[i] != players[j]
    }

    constructor (ps: seq<Player>)
      ensures players == ps
    {
      players := ps;
    }

    /** The dealer flags, seat by seat. */
    function Flags(): (f: seq<bool>)
      reads this, players
      ensures |f| == |players| && forall i :: 0 <= i < |players| ==> f[i] == players[i].isDealer
    {
      seq(|players|, i reads players requires 0 <= i < |players| => players[i].isDealer)
    }

    /** The `dealer` getter: the first flagged player, or None. */
    method Dealer() returns (d: Option<Player>)
      ensures FirstDealer(Flags()).None? ==> d.None?
      ensures FirstDealer(Flags()).Some? ==> d == Some(players[FirstDealer(Flags()).value])
    {
      var i := 0;
      while i < |players|
        invariant 0 <= i <= |players|
        invariant forall k :: 0 <= k < i ==> !players[k].isDealer
      {
        if players[i].isDealer {
          return Some(players[i]);
        }
        i := i + 1;
      }
      return None;
    }

    /** list.index: the first seat holding `p`. */
    method Index(p: Player) returns (k: nat)
      requires p in players
      ensures k < |players| && players[k] == p
      ensures forall j :: 0 <= j < k ==> players[j] != p
    {
      k := 0;
      while players[k] != p
        invariant k < |players|
        invariant forall j :: 0 <= j < k ==> players[j] != p
        decreases |players| - k
      {
        k := k + 1;
      }
    }

    /**
     * The `dealer` setter: ValueError for a player outside the group;
     * otherwise exactly that player is flagged. Only dealer flags may
     * change, so hands, pegging hands and scores stay as they were.
     */
    method SetDealer(p: Player) returns (o: Outcome)
      requires Valid()
      modifies players`isDealer
      ensures p !in players ==> o == Fail(ValueError) && Flags() == old(Flags())
      ensures p in players ==> o == Pass && forall i :: 0 <= i < |players| ==> players[i].isDealer == (players[i] == p)
    {
      if p !in players {
        return Fail(ValueError);
      }
      var i := 0;
      while i < |players|
        invariant 0 <= i <= |players|
        invariant forall k :: 0 <= k < i ==> players[k].isDealer == (players[k] == p)
        invariant forall k :: i <= k < |players| ==> players[k].isDealer == old(players[k].isDealer)
      {
        players[i].isDealer := players[i] == p;
        i := i + 1;
      }
      o := Pass;
    }

    /**
     * _permute_dealer: the flag moves from the dealer's seat to the next one,
     * cyclically; ValueError when nobody is dealer. Only dealer flags may
     * change.
     */
    method PermuteDealer() returns (o: Outcome)
      requires Valid()
      modifies players`isDealer
      ensures o == if FirstDealer(old(Flags())).None? then Fail(ValueError) else Pass
      ensures Flags() == Permuted(old(Flags()))
    {
      var d := Dealer();
      ghost var f := Flags();
      if d.None? {
        assert Permuted(f) == f;
        return Fail(ValueError);
      }
      ghost var first := FirstDealer(f).value;
      var k := Index(d.value);
      assert k == first by {
        assert f[k] && f[first];
      }
      var next := NextSeat(k, |players|);
      assert Permuted(f) == MoveFlag(f, k, next);
      MoveDealerFlag(k, next);
      o := Pass;
    }

    /** Clears the flag at seat `from`, then sets the one at seat `to`. */
    method MoveDealerFlag(from: nat, to: nat)
      requires Valid() && from < |players| && to < |players|
      modifies players`isDealer
      ensures Flags() == MoveFlag(old(Flags()), from, to)
    {
      ghost var f := Flags();
      players[from].isDealer := false;
      players[to].isDealer := true;
      assert forall i :: 0 <= i < |players| && i != from && i != to ==> players[i].isDealer == f[i];
    }

    /**
     * get_player_order_generator: fixes the dealer's seat when called
     * (ValueError when nobody is dealer) and yields the following seats.
     */
    method OrderGenerator() returns (r: Result<OrderGen>)
      ensures r.Err? <==> FirstDealer(Flags()).None?
      ensures r.Err? ==> r.error == ValueError
      ensures r.Ok? ==>
        fresh(r.value) && r.value.players == players
        && r.value.dealerIndex == FirstDealer(Flags()).value && r.value.count == 0
    {
      var d := Dealer();
      if d.None? {
        return Err(ValueError);
      }
      var k := Index(d.value);
      var g := new OrderGen(players, k);
      r := Ok(g);
    }
  }

  /** The generator player_order_gen: its step counter and the seat it started from. */
  class OrderGen {
    const players: seq<Player>
    const dealerIndex: nat
    var count: nat

    constructor (ps: seq<Player>, d: nat)
      requires d < |ps|
      ensures players == ps && dealerIndex == d && count == 0
    {
      players := ps;
      dealerIndex := d;
      count := 0;
    }

    /** next(): advances the counter and yields the player that many seats after the dealer. */
    method Next() returns (p: Player)
      requires dealerIndex < |players|
      modifies this
      ensures count == old(count) + 1
      ensures p == players[Seat(dealerIndex, count, |players|)]
    {
      count := count + 1;
      p := players[Seat(dealerIndex, count, |players|)];
    }
  }
}
