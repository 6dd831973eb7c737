/**
 How far the stored legs of an accepted voucher can be from balancing, exactly: the difference stays within
 (n + 2) / 2 paise for every voucher of n legs, up to the size at which the nudges of round2
 (src/common/posting/voucher-posting.service.ts) add up to a paisa, and beyond that size it does not.
 */
module RoundingBound {
  import opened Prelude
  import opened Rounding

  /** The stored sides differ by at most (n + 2) / 2 paise. */
  ghost predicate WithinHalf(legs: seq<Leg>) {
    -(|legs| + 2) <= 2 * (SidePaise(legs, DR) - SidePaise(legs, CR)) <= |legs| + 2
  }

  /** The nudges of all legs but three stay within a paisa, or one and a half when the legs are even in number. */
  ghost predicate Small(n: int) {
    Nudges(n - 3) <= if n % 2 == 1 then 1.0 else 1.5
  }

  // ---------------------------------------------------------------- the bound

  /** How much a side is stored above its rounded total. */
  ghost function Excess(legs: seq<Leg>, side: Side): int { SidePaise(legs, side) - Round2(SideTotal(legs, side)) }

  lemma {:induction false} ExcessBounds(legs: seq<Leg>, side: Side)
    ensures var m := SideCount(legs, side);
      && (m > 0 ==>
            && Excess(legs, side) as real < m as real / 2.0 + 0.5 + Nudges(m - 1)
            && -(Excess(legs, side) as real) < m as real / 2.0 + 0.5 - Nudges(m - 1))
      && (m == 0 ==> Excess(legs, side) == 0 && SideTotal(legs, side) == 0.0)
  {
    if SideCount(legs, side) == 0 {
      EmptySide(legs, side);
      assert Round2(0.0) == 0;
    } else {
      SideNear(legs, side);
      RoundNear(SideTotal(legs, side));
    }
  }

  lemma {:induction false} EmptySide(legs: seq<Leg>, side: Side)
    requires SideCount(legs, side) == 0
    ensures SidePaise(legs, side) == 0 && SideTotal(legs, side) == 0.0
  {
    if legs != [] {
      EmptySide(legs[..|legs| - 1], side);
    }
  }

  /** Legs that together round to nothing are each stored as nothing. */
  lemma {:induction false} Nothing(legs: seq<Leg>, side: Side)
    requires Round2(SideTotal(legs, side)) == 0
    ensures SidePaise(legs, side) == 0
  {
    if legs != [] {
      var n := |legs| - 1;
      SideNear(legs[..n], side);
      Smaller(SideTotal(legs[..n], side), SideTotal(legs, side));
      Nothing(legs[..n], side);
      if legs[n].side == side {
        Smaller(Abs(legs[n].amount), SideTotal(legs, side));
      }
    }
  }

  lemma {:induction false} Smaller(v: real, w: real)
    requires 0.0 <= v <= w && Round2(w) == 0
    ensures Round2(v) == 0
  {
    RoundNear(w);
    assert (v + EPSILON) * 100.0 + 0.5 <= (w + EPSILON) * 100.0 + 0.5;
  }

  /** The arithmetic of it: m legs stored too high by p, k legs too low by q. */
  lemma {:induction false} Halves(m: nat, k: nat, p: int, q: int)
    requires Small(m + k) && m > 0 && k > 0
    requires p as real < m as real / 2.0 + 0.5 + Nudges(m - 1)
    requires q as real < k as real / 2.0 + 0.5 - Nudges(k - 1)
    ensures 2 * (p + q) <= m + k + 2
  {
    assert 2 * q <= k;
    assert k % 2 == 1 ==> 2 * q <= k - 1;
    assert (2 * p) as real < (m + 1) as real + 2.0 * Nudges(m - 1);
    assert Nudges(m - 1) <= Nudges(m + k - 3) + if k == 1 then NUDGE else 0.0;
  }

  lemma {:induction false} NotAbove(legs: seq<Leg>, side: Side)
    requires Balanced(legs) && Small(|legs|)
    ensures 2 * (SidePaise(legs, side) - SidePaise(legs, side.Other())) <= |legs| + 2
  {
    var m, k := SideCount(legs, side), SideCount(legs, side.Other());
    CountsAddUp(legs);
    ExcessBounds(legs, side);
    ExcessBounds(legs, side.Other());
    if k == 0 {
      assert Round2(0.0) == 0;
      Nothing(legs, side);
    } else if m == 0 {
      assert 2.0 * -(Excess(legs, side.Other()) as real) < k as real + 1.0;
    } else {
      Halves(m, k, Excess(legs, side), -Excess(legs, side.Other()));
    }
  }

  lemma {:induction false} StoredWithinHalfPaisaPerLeg(legs: seq<Leg>)
    requires Balanced(legs) && Small(|legs|)
    ensures WithinHalf(legs)
  {
    NotAbove(legs, DR);
    NotAbove(legs, CR);
  }

  // ---------------------------------------------------------------- beyond that size

  /** m equal debits of x paise. */
  ghost function Debits(m: nat, x: real): (legs: seq<Leg>)
    ensures |legs| == m
  {
    if m == 0 then [] else Debits(m - 1, x) + [Leg(0, DR, x / 100.0)]
  }

  /** One more debit that is stored as one paisa. */
  lemma {:induction false} OneMore(legs: seq<Leg>, leg: Leg, x: real)
    requires leg.side == DR && leg.amount == x / 100.0 && 0.5 - NUDGE <= x < 1.0
    ensures var all := legs + [leg];
      && 100.0 * SideTotal(all, DR) == 100.0 * SideTotal(legs, DR) + x && SideTotal(all, CR) == SideTotal(legs, CR)
      && SidePaise(all, DR) == SidePaise(legs, DR) + 1 && SidePaise(all, CR) == SidePaise(legs, CR)
      && Kept(all) == Kept(legs) + [leg]
  {
    assert (legs + [leg])[..|legs|] == legs;
    PaiseRound(x, 1);
    assert 100.0 * (x / 100.0) == x;
  }

  ghost predicate Alike(legs: seq<Leg>, m: nat, total: real) {
    && 100.0 * SideTotal(legs, DR) == total && SideTotal(legs, CR) == 0.0
    && SidePaise(legs, DR) == m && SidePaise(legs, CR) == 0 && Kept(legs) == legs
  }

  /** m times x, added up. */
  ghost function Repeated(m: nat, x: real): real { if m == 0 then 0.0 else Repeated(m - 1, x) + x }

  lemma {:induction false} RepeatedIs(m: nat, x: real)
    ensures Repeated(m, x) == m as real * x
  {
    if m > 0 {
      RepeatedIs(m - 1, x);
      Times(m, x);
    }
  }

  lemma {:induction false} DebitTotals(m: nat, x: real)
    requires 0.5 - NUDGE <= x < 1.0
    ensures Alike(Debits(m, x), m, Repeated(m, x))
  {
    if m > 0 {
      DebitTotals(m - 1, x);
      OneAlike(Debits(m - 1, x), m - 1, Repeated(m - 1, x), x);
    }
  }

  lemma {:induction false} OneAlike(legs: seq<Leg>, m: nat, total: real, x: real)
    requires Alike(legs, m, total) && 0.5 - NUDGE <= x < 1.0
    ensures Alike(legs + [Leg(0, DR, x / 100.0)], m + 1, total + x)
  {
    OneMore(legs, Leg(0, DR, x / 100.0), x);
  }

  lemma {:induction false} Times(m: nat, x: real)
    requires m > 0
    ensures m as real * x == (m - 1) as real * x + x
  {
  }

  lemma {:induction false} PaiseRound(x: real, paise: int)
    requires 0.0 <= x && paise as real - 0.5 - NUDGE <= x < paise as real + 0.5 - NUDGE
    ensures Round2(x / 100.0) == paise
  {
    assert (x / 100.0 + EPSILON) * 100.0 == x + NUDGE;
  }

  /** Two credits of c - 1.6 and 1.4 paise. */
  ghost function WithCredits(legs: seq<Leg>, c: real): seq<Leg> {
    legs + [Leg(0, CR, (c - 1.6) / 100.0)] + [Leg(0, CR, 1.4 / 100.0)]
  }

  lemma {:induction false} CreditTotals(legs: seq<Leg>, c: int)
    requires c >= 3 && SideTotal(legs, CR) == 0.0 && SidePaise(legs, CR) == 0 && Kept(legs) == legs
    ensures var all := WithCredits(legs, c as real);
      && 100.0 * SideTotal(all, CR) == c as real - 0.2 && SideTotal(all, DR) == SideTotal(legs, DR)
      && SidePaise(all, CR) == c - 1 && SidePaise(all, DR) == SidePaise(legs, DR)
      && Kept(all) == all && |all| == |legs| + 2
  {
    var one := Leg(0, CR, (c as real - 1.6) / 100.0);
    var two := Leg(0, CR, 1.4 / 100.0);
    var some := legs + [one];
    assert some[..|legs|] == legs && (some + [two])[..|some|] == some;
    PaiseRound(c as real - 1.6, c - 2);
    PaiseRound(1.4, 1);
    assert 100.0 * ((c as real - 1.6) / 100.0) == c as real - 1.6;
    assert 100.0 * (1.4 / 100.0) == 1.4;
  }

  /** The sizes of the example: m debits stored p above their rounded total of c paise. */
  lemma {:induction false} Sizes(m: nat, p: int, c: int, short: real, x: real)
    requires m >= 10 && p == m / 2 + 2 && c == m - p && x == (c as real + 0.5 - NUDGE - short) / m as real
    requires 0.0 < short <= 0.5 && short <= Nudges(m - 1) - (p as real - m as real / 2.0 - 0.5)
    ensures c >= 3 && 0.5 - NUDGE <= x < 1.0 && m as real * x == c as real + 0.5 - NUDGE - short
  {
    var a := c as real + 0.5 - NUDGE - short;
    assert m as real * (0.5 - NUDGE) <= a < m as real;
    Share(m as real, a, 0.5 - NUDGE);
  }

  lemma {:induction false} Share(m: real, a: real, low: real)
    requires m > 0.0 && m * low <= a < m
    ensures low <= a / m < 1.0 && m * (a / m) == a
  {
    var x := a / m;
    assert m * x == a;
    Cancel(m, low, x);
    Cancel(m, x, 1.0);
  }

  lemma {:induction false} Cancel(m: real, x: real, y: real)
    requires m > 0.0
    ensures m * x <= m * y ==> x <= y
    ensures m * x < m * y ==> x < y
  {
    if y < x {
      assert m * (x - y) > 0.0;
    }
  }

  /** There is room for the example exactly beyond the small sizes. */
  lemma {:induction false} Slack(m: nat) returns (short: real)
    requires !Small(m + 2)
    ensures m >= 10 && 0.0 < short <= 0.5
    ensures short <= Nudges(m - 1) - ((m / 2 + 2) as real - m as real / 2.0 - 0.5)
  {
    var slack := Nudges(m - 1) - ((m / 2 + 2) as real - m as real / 2.0 - 0.5);
    short := if slack < 0.5 then slack else 0.5;
  }

  lemma {:induction false} Unsettled(m: nat) returns (legs: seq<Leg>)
    requires !Small(m + 2)
    ensures |legs| == m + 2 && Kept(legs) == legs && Balanced(legs) && !WithinHalf(legs)
  {
    var short := Slack(m);
    var p := m / 2 + 2;
    legs := Example(m, p, m - p, short);
  }

  lemma {:induction false} Example(m: nat, p: int, c: int, short: real) returns (legs: seq<Leg>)
    requires m >= 10 && p == m / 2 + 2 && c == m - p && 0.0 < short <= 0.5
    requires short <= Nudges(m - 1) - (p as real - m as real / 2.0 - 0.5)
    ensures |legs| == m + 2 && Kept(legs) == legs && Balanced(legs) && !WithinHalf(legs)
  {
    var x := (c as real + 0.5 - NUDGE - short) / m as real;
    Sizes(m, p, c, short, x);
    DebitTotals(m, x);
    RepeatedIs(m, x);
    CreditTotals(Debits(m, x), c);
    legs := WithCredits(Debits(m, x), c as real);
    BothRound(legs, c, short);
  }

  lemma {:induction false} BothRound(legs: seq<Leg>, c: int, short: real)
    requires c >= 3 && 0.0 < short <= 0.5
    requires 100.0 * SideTotal(legs, DR) == c as real + 0.5 - NUDGE - short
    requires 100.0 * SideTotal(legs, CR) == c as real - 0.2
    ensures Balanced(legs)
  {
    PaiseRound(100.0 * SideTotal(legs, DR), c);
    PaiseRound(100.0 * SideTotal(legs, CR), c);
  }

  /**
   Every accepted voucher of n legs, each worth a paisa or more, is stored within (n + 2) / 2 paise of
   balance, if and only if n is small: for odd n up to about 4.5 * 10^13, for even n half as many again.
   */
  lemma {:induction false} HalfPaisaBoundIff(n: nat)
    ensures (forall legs | |legs| == n && Kept(legs) == legs && Balanced(legs) :: WithinHalf(legs)) <==> Small(n)
  {
    if Small(n) {
      forall legs | |legs| == n && Kept(legs) == legs && Balanced(legs) ensures WithinHalf(legs) {
        StoredWithinHalfPaisaPerLeg(legs);
      }
    } else {
      assert n >= 3;
      var legs := Unsettled(n - 2);
    }
  }
}
