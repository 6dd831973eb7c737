/**
 A party's balance over the years (src/common/party/party-balance.service.ts): a year's opening set
 replaces the carried figure when it is a live carry-forward or the first year; otherwise last year's
 closing carries over.  Amounts are signed paise; years come in order.
 */
module BalanceWalk {
  import opened Prelude

  datatype Opening = Opening(amount: int, stale: bool)

  /** The counted legs of one year and its opening set, when it has one. */
  datatype Year = Year(legs: int, opening: Option<Opening>)

  /** The opening set of year i takes the place of what was carried. */
  predicate Opens(years: seq<Year>, i: int) {
    0 <= i < |years| && years[i].opening.Some? && (!years[i].opening.value.stale || i == 0)
  }

  function Closing(years: seq<Year>): int {
    if years == [] then 0
    else
      var n := |years| - 1;
      years[n].legs + if Opens(years, n) then years[n].opening.value.amount else Closing(years[..n])
  }

  function LegsFrom(years: seq<Year>, i: nat): int
    requires i <= |years|
    decreases |years| - i
  {
    if i == |years| then 0 else years[i].legs + LegsFrom(years, i + 1)
  }

  /** No opening set counts after year j. */
  ghost predicate LastOpening(years: seq<Year>, j: int) { forall i | j < i < |years| :: !Opens(years, i) }

  lemma {:induction false} LegsFromLast(years: seq<Year>, i: nat)
    requires years != [] && i < |years|
    ensures LegsFrom(years, i) == LegsFrom(years[..|years| - 1], i) + years[|years| - 1].legs
    decreases |years| - i
  {
    if i < |years| - 1 {
      LegsFromLast(years, i + 1);
    } else {
      assert LegsFrom(years, i + 1) == 0;
    }
  }

  lemma {:induction false} OpensBefore(years: seq<Year>, i: int)
    requires years != [] && i < |years| - 1
    ensures Opens(years[..|years| - 1], i) == Opens(years, i)
  {
  }

  /** The closing is the last opening that counts plus all the legs from its year on, or all the legs. */
  lemma {:induction false} ClosingFromLastOpening(years: seq<Year>, j: int)
    requires LastOpening(years, j) && (Opens(years, j) || j == -1)
    ensures Closing(years)
         == if j == -1 then LegsFrom(years, 0) else years[j].opening.value.amount + LegsFrom(years, j)
  {
    if years != [] {
      var n := |years| - 1;
      LegsFromLast(years, Max(j, 0));
      if j == n {
        assert LegsFrom(years[..n], n) == 0;
      } else {
        forall i | j < i < n ensures !Opens(years[..n], i) {
          OpensBefore(years, i);
        }
        if j >= 0 {
          OpensBefore(years, j);
        }
        ClosingFromLastOpening(years[..n], j);
      }
    }
  }

  /** An opening set that replaces what was carried: a live one, or any one of the first year. */
  ghost predicate Replaces(o: Option<Opening>, first: bool) { o.Some? && (first || !o.value.stale) }

  /**
   The closing in terms of the opening sets alone.  With j the last year whose set is live or that is the first
   year: that set's amount and the legs from its year on.  With no such year: all the legs.
   */
  lemma {:induction false} ClosingByOpenings(years: seq<Year>, j: int)
    requires -1 <= j < |years| && forall i | j < i < |years| :: !Replaces(years[i].opening, i == 0)
    requires j >= 0 ==> Replaces(years[j].opening, j == 0)
    ensures Closing(years) == (if j >= 0 then years[j].opening.value.amount else 0) + LegsFrom(years, Max(j, 0))
  {
    assert forall i :: 0 <= i < |years| ==> (Opens(years, i) <==> Replaces(years[i].opening, i == 0));
    ClosingFromLastOpening(years, j);
  }

  function FirstOpening(years: seq<Year>): int { if Opens(years, 0) then years[0].opening.value.amount else 0 }

  /** A carry-forward that counts states what the year before closed at. */
  ghost predicate CarriesForward(years: seq<Year>, j: nat)
    requires 0 < j <= |years|
  {
    j < |years| && Opens(years, j) ==> years[j].opening.value.amount == Closing(years[..j])
  }

  /** Closing the first n years at the first opening plus their legs. */
  ghost predicate ClosesAtLegs(years: seq<Year>, n: nat)
    requires n <= |years|
  {
    Closing(years[..n]) == FirstOpening(years[..n]) + LegsFrom(years[..n], 0)
  }

  lemma {:induction false} OneMoreYear(years: seq<Year>, n: nat)
    requires 0 < n < |years| && ClosesAtLegs(years, n)
    ensures ClosesAtLegs(years, n + 1) <==> CarriesForward(years, n)
  {
    var now := years[..n + 1];
    assert now[..n] == years[..n];
    LegsFromLast(now, 0);
    assert Opens(now, n) == Opens(years, n);
    assert Opens(now, 0) == Opens(years, 0) == Opens(years[..n], 0);
  }

  /**
   Every year closes at the first opening plus all the legs so far, if and only if every carry-forward
   that counts equals the closing before it.
   */
  lemma {:induction false} CarryForwardIff(years: seq<Year>)
    ensures (forall n | 0 <= n <= |years| :: ClosesAtLegs(years, n))
       <==> (forall j | 0 < j < |years| :: CarriesForward(years, j))
  {
    if forall n | 0 <= n <= |years| :: ClosesAtLegs(years, n) {
      forall j | 0 < j < |years| ensures CarriesForward(years, j) {
        assert ClosesAtLegs(years, j) && ClosesAtLegs(years, j + 1);
        OneMoreYear(years, j);
      }
    }
    if forall j | 0 < j < |years| :: CarriesForward(years, j) {
      forall n | 0 <= n <= |years| ensures ClosesAtLegs(years, n) {
        CarriedSoFar(years, n);
      }
    }
  }

  lemma {:induction false} CarriedSoFar(years: seq<Year>, n: nat)
    requires n <= |years| && forall j | 0 < j < |years| :: CarriesForward(years, j)
    ensures ClosesAtLegs(years, n)
  {
    if n == 1 {
      var now := years[..1];
      assert LegsFrom(now, 1) == 0 && Closing(now[..0]) == 0;
    } else if n > 1 {
      CarriedSoFar(years, n - 1);
      OneMoreYear(years, n - 1);
    }
  }

  // ---------------------------------------------------------------- every company

  datatype Books = Books(company: nat, year: Year)

  ghost function YearsOf(books: seq<Books>, company: nat): seq<Year> {
    if books == [] then []
    else
      var before, b := YearsOf(books[..|books| - 1], company), books[|books| - 1];
      if b.company == company then before + [b.year] else before
  }

  method BalanceOf(years: seq<Year>) returns (running: int)
    ensures running == Closing(years)
  {
    running := 0;
    var first := true;
    for i := 0 to |years|
      invariant running == Closing(years[..i]) && first == (i == 0)
    {
      assert years[..i + 1][..i] == years[..i];
      assert Opens(years[..i + 1], i) == Opens(years, i);
      if years[i].opening.Some? && (!years[i].opening.value.stale || first) {
        running := years[i].opening.value.amount;
      }
      running := running + years[i].legs;
      first := false;
    }
    assert years[..|years|] == years;
  }

  method GroupByCompany(books: seq<Books>) returns (companies: seq<nat>, byCompany: map<nat, seq<Year>>)
    ensures forall i, j | 0 <= i < j < |companies| :: companies[i] != companies[j]
    ensures forall c :: c in companies <==> YearsOf(books, c) != []
    ensures forall c :: c in companies <==> c in byCompany
    ensures forall c | c in byCompany :: byCompany[c] == YearsOf(books, c)
  {
    companies, byCompany := [], map[];
    for i := 0 to |books|
      invariant forall i, j | 0 <= i < j < |companies| :: companies[i] != companies[j]
      invariant forall c :: c in companies <==> YearsOf(books[..i], c) != []
      invariant forall c :: c in companies <==> c in byCompany
      invariant forall c | c in byCompany :: byCompany[c] == YearsOf(books[..i], c)
    {
      assert books[..i + 1][..i] == books[..i];
      var b := books[i];
      var years := if b.company in byCompany then byCompany[b.company] else [];
      if b.company !in byCompany {
        companies := companies + [b.company];
      }
      byCompany := byCompany[b.company := years + [b.year]];
    }
    assert books[..|books|] == books;
  }

  ghost function Figures(books: seq<Books>, companies: seq<nat>): seq<(nat, int)> {
    if companies == [] then []
    else
      var before, c := Figures(books, companies[..|companies| - 1]), companies[|companies| - 1];
      var closing := Closing(YearsOf(books, c));
      if closing != 0 then before + [(c, closing)] else before
  }

  lemma {:induction false} FiguresHold(books: seq<Books>, companies: seq<nat>)
    requires forall i, j | 0 <= i < j < |companies| :: companies[i] != companies[j]
    ensures forall x :: (x in Figures(books, companies)
      <==> x.0 in companies && x.1 == Closing(YearsOf(books, x.0)) && x.1 != 0)
    ensures forall i, j | 0 <= i < j < |Figures(books, companies)| ::
      Figures(books, companies)[i].0 != Figures(books, companies)[j].0
  {
    if companies != [] {
      var n := |companies| - 1;
      FiguresHold(books, companies[..n]);
      var before := Figures(books, companies[..n]);
      assert companies == companies[..n] + [companies[n]];
      forall i | 0 <= i < |before| ensures before[i].0 != companies[n] {
        assert before[i] in before;
      }
    }
  }

  /** The list of balances is complete, exact and without repeats. */
  ghost predicate IsBalances(books: seq<Books>, out: seq<(nat, int)>) {
    && (forall x :: (x in out <==> x.1 == Closing(YearsOf(books, x.0)) && x.1 != 0))
    && (forall i, j | 0 <= i < j < |out| :: out[i].0 != out[j].0)
  }

  lemma {:induction false} AllFigures(books: seq<Books>, companies: seq<nat>, out: seq<(nat, int)>)
    requires forall i, j | 0 <= i < j < |companies| :: companies[i] != companies[j]
    requires forall c :: c in companies <==> YearsOf(books, c) != []
    requires out == Figures(books, companies)
    ensures IsBalances(books, out)
  {
    FiguresHold(books, companies);
    assert forall c :: c !in companies ==> Closing(YearsOf(books, c)) == 0;
  }

  method ListBalances(companies: seq<nat>, byCompany: map<nat, seq<Year>>, ghost books: seq<Books>)
    returns (out: seq<(nat, int)>)
    requires forall c | c in companies :: c in byCompany && byCompany[c] == YearsOf(books, c)
    ensures out == Figures(books, companies)
  {
    out := [];
    for i := 0 to |companies|
      invariant out == Figures(books, companies[..i])
    {
      assert companies[..i + 1][..i] == companies[..i];
      var c := companies[i];
      assert c in companies;
      var running := BalanceOf(byCompany[c]);
      if running != 0 {
        out := out + [(c, running)];
      }
    }
    assert companies[..|companies|] == companies;
  }

  /** Every company with books that does not close at nothing, once, with what it closes at. */
  method Balances(books: seq<Books>) returns (out: seq<(nat, int)>)
    ensures IsBalances(books, out)
  {
    var companies, byCompany := GroupByCompany(books);
    out := ListBalances(companies, byCompany, books);
    AllFigures(books, companies, out);
  }
}
