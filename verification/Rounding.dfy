/**
 Paise out of rupee amounts of any precision (round2, sumSides and assertBalanced of
 src/common/posting/voucher-posting.service.ts), and how far the stored legs of an accepted voucher
 can be from balancing.  Amounts are exact reals; a rounded amount is the number of paise.
 */
module Rounding {
  import opened Prelude

  /** Number.EPSILON. */
  const EPSILON: real := 1.0 / 4503599627370496.0

  /** What the nudge adds, in paise: a hundred times EPSILON. */
  const NUDGE: real := 25.0 / 1125899906842624.0

  /** What n nudges add. */
  function Nudges(n: int): real { n as real * (25.0 / 1125899906842624.0) }

  function Abs(v: real): real { if v < 0.0 then -v else v }

  /** round2, as paise: half a paisa goes up, after a nudge away from zero. */
  function Round2(v: real): int {
    var nudged := if v < 0.0 then v - EPSILON else v + EPSILON;
    (nudged * 100.0 + 0.5).Floor
  }

  /** Half a paisa more is a paisa more, on either side of zero and with the nudge away from it. */
  lemma {:induction false} RoundMeaning(v: real)
    ensures v >= 0.0 ==> Round2(v) as real - 0.5 <= 100.0 * (v + EPSILON) < Round2(v) as real + 0.5
    ensures v < 0.0 ==> Round2(v) as real - 0.5 <= 100.0 * (v - EPSILON) < Round2(v) as real + 0.5
    ensures (Abs(v) == v || Abs(v) == -v) && Abs(v) >= 0.0
    ensures EPSILON * 4503599627370496.0 == 1.0
  {
  }

  datatype Leg = Leg(ledger: nat, side: Side, amount: real)

  /** The legs worth writing: round2(amount) is not zero. */
  function Kept(legs: seq<Leg>): seq<Leg> {
    if legs == [] then []
    else
      var n := |legs| - 1;
      if Round2(legs[n].amount) != 0 then Kept(legs[..n]) + [legs[n]] else Kept(legs[..n])
  }

  /** A leg is written if and only if its amount, either way, comes to half a paisa, the nudge counted in. */
  lemma {:induction false} KeptIff(legs: seq<Leg>, leg: Leg)
    ensures leg in Kept(legs) <==> leg in legs && (leg.amount >= 0.005 - EPSILON || leg.amount < EPSILON - 0.005)
  {
    if legs != [] {
      var n := |legs| - 1;
      KeptIff(legs[..n], leg);
      RoundMeaning(legs[n].amount);
      assert legs == legs[..n] + [legs[n]];
    }
  }

  /** Kept legs are in their own order, and none is kept twice for one that was given once. */
  lemma {:induction false} KeptPlaces(legs: seq<Leg>) returns (at: seq<nat>)
    ensures |at| == |Kept(legs)| && forall k | 0 <= k < |at| :: at[k] < |legs| && Kept(legs)[k] == legs[at[k]]
    ensures forall k, l | 0 <= k < l < |at| :: at[k] < at[l]
  {
    at := [];
    if legs != [] {
      var n := |legs| - 1;
      at := KeptPlaces(legs[..n]);
      if Round2(legs[n].amount) != 0 { at := at + [n]; }
    }
  }

  /** The exact total of one side. */
  function SideTotal(legs: seq<Leg>, side: Side): real {
    if legs == [] then 0.0
    else
      var n := |legs| - 1;
      SideTotal(legs[..n], side) + if legs[n].side == side then Abs(legs[n].amount) else 0.0
  }

  /** The total of one side as stored: each leg rounded on its own. */
  function SidePaise(legs: seq<Leg>, side: Side): int {
    if legs == [] then 0
    else
      var n := |legs| - 1;
      SidePaise(legs[..n], side) + if legs[n].side == side then Round2(Abs(legs[n].amount)) else 0
  }

  function SideCount(legs: seq<Leg>, side: Side): nat {
    if legs == [] then 0
    else SideCount(legs[..|legs| - 1], side) + if legs[|legs| - 1].side == side then 1 else 0
  }

  /** sumSides: both totals in one pass, rounded once each. */
  method SumSides(legs: seq<Leg>) returns (dr: int, cr: int)
    ensures dr == Round2(SideTotal(legs, DR)) && cr == Round2(SideTotal(legs, CR))
  {
    var debit, credit := 0.0, 0.0;
    for i := 0 to |legs|
      invariant debit == SideTotal(legs[..i], DR) && credit == SideTotal(legs[..i], CR)
    {
      assert legs[..i + 1][..i] == legs[..i];
      if legs[i].side == DR { debit := debit + Abs(legs[i].amount); }
      else { credit := credit + Abs(legs[i].amount); }
    }
    assert legs[..|legs|] == legs;
    dr, cr := Round2(debit), Round2(credit);
  }

  /** assertBalanced: the rounded totals agree. */
  predicate Balanced(legs: seq<Leg>) {
    Round2(SideTotal(legs, DR)) == Round2(SideTotal(legs, CR))
  }

  lemma {:induction false} RoundNear(v: real)
    requires 0.0 <= v
    ensures Round2(v) as real - 100.0 * v <= 0.5 + NUDGE
    ensures Round2(v) as real - 100.0 * v > NUDGE - 0.5
  {
    assert (v + EPSILON) * 100.0 == 100.0 * v + NUDGE;
  }

  lemma {:induction false} SideNear(legs: seq<Leg>, side: Side)
    ensures var drift := SidePaise(legs, side) as real - 100.0 * SideTotal(legs, side);
      var n := SideCount(legs, side);
      Nudges(n) - n as real / 2.0 <= drift <= Nudges(n) + n as real / 2.0 && (n > 0 ==> Nudges(n) - n as real / 2.0 < drift)
    ensures 0.0 <= SideTotal(legs, side)
  {
    if legs != [] {
      var n := |legs| - 1;
      SideNear(legs[..n], side);
      if legs[n].side == side { RoundNear(Abs(legs[n].amount)); }
    }
  }

  lemma {:induction false} CountsAddUp(legs: seq<Leg>)
    ensures SideCount(legs, DR) + SideCount(legs, CR) == |legs|
  {
    if legs != [] { CountsAddUp(legs[..|legs| - 1]); }
  }

  /** An accepted voucher of n legs is stored within n/2 + 1 paise of balance, plus n nudges. */
  lemma {:induction false} StoredNearlyBalances(legs: seq<Leg>)
    requires Balanced(legs)
    ensures var diff := SidePaise(legs, DR) - SidePaise(legs, CR);
      var most := |legs| as real / 2.0 + 1.0 + Nudges(|legs|);
      -most < diff as real < most
  {
    SideNear(legs, DR);
    SideNear(legs, CR);
    CountsAddUp(legs);
    TotalsNear(SideTotal(legs, DR), SideTotal(legs, CR));
  }

  lemma {:induction false} TotalsNear(a: real, b: real)
    requires 0.0 <= a && 0.0 <= b && Round2(a) == Round2(b)
    ensures -1.0 < 100.0 * a - 100.0 * b < 1.0
  {
    RoundNear(a);
    RoundNear(b);
  }

  ghost predicate WholePaise(legs: seq<Leg>) {
    forall i | 0 <= i < |legs| :: IsWhole(legs[i].amount)
  }

  ghost predicate IsWhole(v: real) { (100.0 * v).Floor as real == 100.0 * v }

  lemma {:induction false} WholeRounds(v: real)
    requires IsWhole(v) && 0.0 <= v
    ensures Round2(v) as real == 100.0 * v
  {
    assert (v + EPSILON) * 100.0 == 100.0 * v + NUDGE;
    assert (100.0 * v + NUDGE + 0.5).Floor == (100.0 * v).Floor;
  }

  lemma {:induction false} WholeAbs(v: real)
    requires IsWhole(v)
    ensures IsWhole(Abs(v))
  {
    var k := (100.0 * v).Floor;
    assert 100.0 * v == k as real;
    if v < 0.0 {
      assert 100.0 * Abs(v) == (-k) as real;
      assert ((-k) as real).Floor == -k;
    }
  }

  lemma {:induction false} WholeSide(legs: seq<Leg>, side: Side)
    requires WholePaise(legs)
    ensures SidePaise(legs, side) as real == 100.0 * SideTotal(legs, side)
  {
    if legs != [] {
      var n := |legs| - 1;
      WholeSide(legs[..n], side);
      assert IsWhole(legs[n].amount);
      if legs[n].side == side {
        WholeAbs(legs[n].amount);
        WholeRounds(Abs(legs[n].amount));
      }
    }
  }

  lemma {:induction false} WholeTotal(legs: seq<Leg>, side: Side)
    requires WholePaise(legs)
    ensures Round2(SideTotal(legs, side)) == SidePaise(legs, side)
  {
    WholeSide(legs, side);
    SideNear(legs, side);
    RoundsTo(SideTotal(legs, side), SidePaise(legs, side));
  }

  lemma {:induction false} RoundsTo(v: real, paise: int)
    requires 0.0 <= v && paise as real == 100.0 * v
    ensures Round2(v) == paise
  {
    assert (v + EPSILON) * 100.0 == paise as real + NUDGE;
  }

  /** With legs in whole paise an accepted voucher is stored in exact balance, and only then accepted. */
  lemma {:induction false} WholePaiseBalance(legs: seq<Leg>)
    requires WholePaise(legs)
    ensures Balanced(legs) <==> SidePaise(legs, DR) == SidePaise(legs, CR)
  {
    WholeTotal(legs, DR);
    WholeTotal(legs, CR);
  }
}
