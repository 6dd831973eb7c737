/**
 The company-wide serial over whole runs of the posting service: one running number per company and year
 across every voucher type (src/common/Sequence/voucher-sequence.helper.ts), which an amend and a cancel
 leave alone (src/common/posting/voucher-posting.service.ts).
 */
module VoucherSerials {
  import opened Prelude
  import opened Rounding
  import opened Vouchers

  /** A company's books of one year. */
  datatype Scope = Scope(company: nat, year: nat)

  predicate HasSerial(v: Voucher, s: Scope, n: nat) {
    v.company == s.company && v.year == s.year && v.slno == Some(n)
  }

  /** Voucher i carries serial n. */
  ghost predicate Carries(j: Journal, i: nat, s: Scope, n: nat) { i < |j| && HasSerial(j[i], s, n) }

  ghost predicate Given(j: Journal, s: Scope, n: nat) { exists i: nat :: Carries(j, i, s, n) }

  /** The serials are exactly 1 .. the highest, each on one voucher. */
  ghost predicate SerialsExact(j: Journal, s: Scope) {
    var k := HighestSerial(j, s.company, s.year);
    && (forall i: nat, n: nat :: Carries(j, i, s, n) ==> 1 <= n <= k)
    && (forall i: nat, i': nat, n: nat :: Carries(j, i, s, n) && Carries(j, i', s, n) ==> i == i')
    && (forall n: nat | 1 <= n <= k :: Given(j, s, n))
  }

  ghost predicate AllExact(j: Journal) { forall s :: SerialsExact(j, s) }

  /** The serial a draft is given: the next of the books named in the header. */
  ghost function GivenSerial(j: Journal, h: Header): nat { HighestSerial(j, h.company, h.year) + 1 }

  /** A draft that is posted had no serial and gets the next of its own books, or gets the serial it has. */
  ghost predicate FreshDraft(j: Journal, step: Step) {
    step.PostDraft? && Acts(j, step) ==>
      var v, n := j[step.id], GivenSerial(j, step.header);
      v.slno == Some(n) || (v.slno.None? && n == HighestSerial(j, v.company, v.year) + 1)
  }

  // ---------------------------------------------------------------- the highest serial

  lemma {:induction false} HighestAppend(j: Journal, v: Voucher, s: Scope)
    ensures HighestSerial(j + [v], s.company, s.year)
         == var k := HighestSerial(j, s.company, s.year);
            if v.company == s.company && v.year == s.year && v.slno.Some? && v.slno.value > k then v.slno.value else k
  {
    assert (j + [v])[..|j|] == j;
  }

  /** The serial a voucher has in a scope, 0 when it has none there. */
  ghost function SerialIn(v: Voucher, s: Scope): nat {
    if v.company == s.company && v.year == s.year && v.slno.Some? then v.slno.value else 0
  }

  lemma {:induction false} HighestUpdate(j: Journal, id: nat, v: Voucher, s: Scope)
    requires id < |j| && SerialIn(v, s) >= SerialIn(j[id], s)
    ensures HighestSerial(j[id := v], s.company, s.year)
         == Max(HighestSerial(j, s.company, s.year), SerialIn(v, s))
  {
    var n := |j| - 1;
    if id == n {
      assert j[id := v][..n] == j[..n];
    } else {
      assert j[id := v][..n] == j[..n][id := v];
      HighestUpdate(j[..n], id, v, s);
    }
  }

  // ---------------------------------------------------------------- steps

  lemma {:induction false} AppendExact(j: Journal, v: Voucher, s: Scope)
    requires SerialsExact(j, s)
    requires v.slno.None? || v.slno == Some(HighestSerial(j, v.company, v.year) + 1)
    ensures SerialsExact(j + [v], s)
  {
    var j', k := j + [v], HighestSerial(j, s.company, s.year);
    HighestAppend(j, v, s);
    forall i: nat, n: nat ensures Carries(j', i, s, n) <==> Carries(j, i, s, n) || (i == |j| && HasSerial(v, s, n)) {
    }
    forall n: nat | 1 <= n <= HighestSerial(j', s.company, s.year) ensures Given(j', s, n) {
      if n <= k {
        assert Given(j, s, n);
        var i: nat :| Carries(j, i, s, n);
        assert Carries(j', i, s, n);
      } else {
        assert Carries(j', |j|, s, n);
      }
    }
  }

  /** Giving a voucher that had no serial the next one. */
  lemma {:induction false} DrawExact(j: Journal, id: nat, v: Voucher, s: Scope)
    requires SerialsExact(j, s) && id < |j| && j[id].slno.None?
    requires v.company == j[id].company && v.year == j[id].year
    requires v.slno == Some(HighestSerial(j, v.company, v.year) + 1)
    ensures SerialsExact(j[id := v], s)
  {
    var j', k := j[id := v], HighestSerial(j, s.company, s.year);
    HighestUpdate(j, id, v, s);
    forall i: nat, n: nat ensures Carries(j', i, s, n) <==> Carries(j, i, s, n) || (i == id && HasSerial(v, s, n)) {
    }
    forall n: nat | 1 <= n <= HighestSerial(j', s.company, s.year) ensures Given(j', s, n) {
      if n <= k {
        assert Given(j, s, n);
        var i: nat :| Carries(j, i, s, n);
        assert Carries(j', i, s, n);
      } else {
        assert Carries(j', id, s, n);
      }
    }
  }

  /** A change that keeps company, year and serial. */
  lemma {:induction false} KeepExact(j: Journal, id: nat, v: Voucher, s: Scope)
    requires SerialsExact(j, s) && id < |j|
    requires v.company == j[id].company && v.year == j[id].year && v.slno == j[id].slno
    ensures SerialsExact(j[id := v], s)
    ensures HighestSerial(j[id := v], v.company, v.year) == HighestSerial(j, v.company, v.year)
  {
    var j', k := j[id := v], HighestSerial(j, s.company, s.year);
    HighestKept(j, id, v, s);
    HighestKept(j, id, v, Scope(v.company, v.year));
    forall i: nat, n: nat ensures Carries(j', i, s, n) <==> Carries(j, i, s, n) {
    }
    forall n: nat | 1 <= n <= k ensures Given(j', s, n) {
      assert Given(j, s, n);
      var i: nat :| Carries(j, i, s, n);
      assert Carries(j', i, s, n);
    }
  }

  lemma {:induction false} HighestKept(j: Journal, id: nat, v: Voucher, s: Scope)
    requires id < |j| && v.company == j[id].company && v.year == j[id].year && v.slno == j[id].slno
    ensures HighestSerial(j[id := v], s.company, s.year) == HighestSerial(j, s.company, s.year)
  {
    HighestUpdate(j, id, v, s);
    HighestUpdate(j, id, j[id], s);
    assert j[id := j[id]] == j;
  }

  lemma {:induction false} CancelExact(j: Journal, id: nat, year: nat, number: nat, kind: nat, s: Scope)
    requires SerialsExact(j, s) && DoCancel(j, id, year, number, kind).Ok? && DoCancel(j, id, year, number, kind).value != j
    ensures SerialsExact(DoCancel(j, id, year, number, kind).value, s)
  {
    var j' := DoCancel(j, id, year, number, kind).value;
    KeepExact(j, id, j'[id], s);
    AppendExact(j[id := j'[id]], j'[|j|], s);
  }

  /** Steps other than posting a draft need no condition. */
  lemma {:induction false} StepExact(j: Journal, step: Step, s: Scope)
    requires SerialsExact(j, s) && !step.PostDraft? && Apply(j, step).Ok?
    ensures SerialsExact(Apply(j, step).value, s)
  {
    var j' := Apply(j, step).value;
    if j' != j {
      match step {
        case CreateDraft(h) => AppendExact(j, j'[|j|], s);
        case PostNew(h, legs) => AppendExact(j, j'[|j|], s);
        case Retire(id, year) => KeepExact(j, id, j'[id], s);
        case Restate(id, h, legs) => KeepExact(j, id, j'[id], s);
        case Cancel(id, year, number, kind) => CancelExact(j, id, year, number, kind, s);
      }
    }
  }

  // ---------------------------------------------------------------- posting a draft

  /** A serial no voucher carries, below one that is carried, is a hole. */
  lemma {:induction false} Hole(j: Journal, s: Scope, id: nat, n: nat, k: nat)
    requires Carries(j, id, s, n) && 1 <= k <= n && !Given(j, s, k)
    ensures !SerialsExact(j, s)
  {
    HighestAbove(j, id);
  }

  /** A serial given while another voucher carries it is on two. */
  lemma {:induction false} Twice(j: Journal, id: nat, v: Voucher, s: Scope, n: nat)
    requires SerialsExact(j, s) && id < |j| && HasSerial(v, s, n) && !Carries(j, id, s, n)
    requires 1 <= n <= HighestSerial(j, s.company, s.year)
    ensures !SerialsExact(j[id := v], s)
  {
    assert Given(j, s, n);
    var i: nat :| Carries(j, i, s, n);
    assert Carries(j[id := v], i, s, n) && Carries(j[id := v], id, s, n);
  }

  /** The serial a voucher gives up is on nobody afterwards. */
  lemma {:induction false} GivenUp(j: Journal, id: nat, v: Voucher, s: Scope, k: nat)
    requires SerialsExact(j, s) && Carries(j, id, s, k) && !HasSerial(v, s, k)
    ensures !Given(j[id := v], s, k)
  {
    var j' := j[id := v];
    if Given(j', s, k) {
      var i: nat :| Carries(j', i, s, k);
      assert Carries(j, i, s, k);
    }
  }

  lemma {:induction false} WrongSerial(j: Journal, id: nat, v: Voucher, n: nat)
    requires AllExact(j) && id < |j| && n >= 1
    requires v.company == j[id].company && v.year == j[id].year && v.slno == Some(n) && j[id].slno != Some(n)
    requires j[id].slno.None? ==> n != HighestSerial(j, v.company, v.year) + 1
    ensures !SerialsExact(j[id := v], Scope(v.company, v.year))
  {
    var s, top := Scope(v.company, v.year), HighestSerial(j, v.company, v.year);
    assert SerialsExact(j, s);
    if n <= top {
      Twice(j, id, v, s, n);
    } else if j[id].slno.Some? {
      var k := j[id].slno.value;
      assert Carries(j, id, s, k);
      GivenUp(j, id, v, s, k);
      assert Carries(j[id := v], id, s, n);
      Hole(j[id := v], s, id, n, k);
    } else {
      var j' := j[id := v];
      if Given(j', s, top + 1) {
        var i: nat :| Carries(j', i, s, top + 1);
        assert Carries(j, i, s, top + 1);
      }
      assert Carries(j', id, s, n);
      Hole(j', s, id, n, top + 1);
    }
  }

  lemma {:induction false} PostDraftExactIff(j: Journal, step: Step)
    requires AllExact(j) && step.PostDraft? && Apply(j, step).Ok?
    ensures AllExact(Apply(j, step).value) <==> FreshDraft(j, step)
  {
    var j', id := Apply(j, step).value, step.id;
    var v, n := j'[id], GivenSerial(j, step.header);
    assert j' == j[id := v];
    if FreshDraft(j, step) {
      forall s ensures SerialsExact(j', s) {
        assert SerialsExact(j, s);
        if j[id].slno == Some(n) {
          KeepExact(j, id, v, s);
        } else {
          DrawExact(j, id, v, s);
        }
      }
    } else {
      WrongSerial(j, id, v, n);
    }
  }

  /**
   A step leaves the serials of every company and year exactly 1 .. k, each on one voucher, if and only if
   it posts no draft, or one that had no serial and gets the next of its own books.
   */
  lemma {:induction false} StepExactIff(j: Journal, step: Step)
    requires AllExact(j) && Apply(j, step).Ok?
    ensures AllExact(Apply(j, step).value) <==> FreshDraft(j, step)
  {
    if step.PostDraft? {
      PostDraftExactIff(j, step);
    } else {
      forall s ensures SerialsExact(Apply(j, step).value, s) {
        assert SerialsExact(j, s);
        StepExact(j, step, s);
      }
    }
  }

  /** Posted under its own company, a draft keeps the serials exact if and only if it had none. */
  lemma {:induction false} OwnDraftExactIff(j: Journal, step: Step)
    requires AllExact(j) && step.PostDraft? && Apply(j, step).Ok? && j[step.id].company == step.header.company
    ensures AllExact(Apply(j, step).value) <==> j[step.id].slno.None?
  {
    StepExactIff(j, step);
    if j[step.id].slno.Some? {
      HighestAbove(j, step.id);
    }
  }

  /** Posting a retired voucher as though it were a fresh draft: its old serial is on nobody for good. */
  lemma {:induction false} ReusedDraftLosesSerial(j: Journal, id: nat, h: Header, legs: seq<Leg>)
    requires AllExact(j) && DoPostDraft(j, id, h, legs).Ok?
    requires j[id].slno.Some? && j[id].company == h.company
    ensures var j' := DoPostDraft(j, id, h, legs).value;
      && j'[id].slno.Some? && j'[id].slno.value > j[id].slno.value
      && !Given(j', Scope(h.company, h.year), j[id].slno.value)
  {
    var s, j' := Scope(h.company, h.year), DoPostDraft(j, id, h, legs).value;
    HighestAbove(j, id);
    assert SerialsExact(j, s) && Carries(j, id, s, j[id].slno.value);
    GivenUp(j, id, j'[id], s, j[id].slno.value);
  }

  // ---------------------------------------------------------------- the index on the serial

  lemma {:induction false} NextSerialFree(j: Journal, id: nat)
    requires id < |j|
    ensures !SerialTaken(j, id, HighestSerial(j, j[id].company, j[id].year) + 1)
  {
    forall i | 0 <= i < |j| && j[i].slno.Some? ensures j[i].slno.value <= HighestSerial(j, j[i].company, j[i].year) {
      HighestAbove(j, i);
    }
  }

  lemma {:induction false} ExactSerialFree(j: Journal, id: nat)
    requires AllExact(j) && id < |j| && j[id].slno.Some?
    ensures !SerialTaken(j, id, j[id].slno.value)
  {
    var s, n := Scope(j[id].company, j[id].year), j[id].slno.value;
    assert SerialsExact(j, s) && Carries(j, id, s, n);
    forall i | 0 <= i < |j| && i != id ensures !Carries(j, i, s, n) {
    }
    if SerialTaken(j, id, n) {
      var i :| 0 <= i < |j| && i != id && InBooks(j[i], j[id].company, j[id].year) && j[i].slno == Some(n);
      assert Carries(j, i, s, n);
    }
  }

  /** While the serials are exact the index refuses at most a draft posted under another company than its own. */
  lemma {:induction false} IndexNeverRefuses(j: Journal, step: Step)
    requires AllExact(j)
    requires step.PostDraft? && step.id < |j| ==> j[step.id].company == step.header.company
    ensures Apply(j, step) != Err(SerialIndex)
  {
    match step {
      case PostDraft(id, h, legs) => if Has(j, id, h.year) { NextSerialFree(j, id); }
      case Restate(id, h, legs) => if id < |j| && j[id].slno.Some? { ExactSerialFree(j, id); }
      case Cancel(id, year, number, kind) => if id < |j| && j[id].slno.Some? { ExactSerialFree(j, id); }
      case _ =>
    }
  }

  // ---------------------------------------------------------------- whole runs

  ghost predicate FreshRun(steps: seq<Step>) {
    forall n | 0 <= n < |steps| :: FreshDraft(After(steps[..n]), steps[n])
  }

  lemma {:induction false} FreshRunExact(steps: seq<Step>, n: nat)
    requires FreshRun(steps) && n <= |steps|
    ensures AllExact(After(steps[..n]))
  {
    if n == 0 {
      assert steps[..0] == [];
    } else {
      FreshRunExact(steps, n - 1);
      AfterOne(steps, n - 1);
      var j := After(steps[..n - 1]);
      assert FreshDraft(j, steps[n - 1]);
      if Apply(j, steps[n - 1]).Ok? {
        StepExactIff(j, steps[n - 1]);
      }
    }
  }

  /**
   In every state of a run, refused steps included, the serials of every company and year are exactly
   1 .. k, each on one voucher, if and only if every draft it posts is fresh.
   */
  lemma {:induction false} RunSerialsIff(steps: seq<Step>)
    ensures (forall n | 0 <= n <= |steps| :: AllExact(After(steps[..n]))) <==> FreshRun(steps)
  {
    if FreshRun(steps) {
      forall n | 0 <= n <= |steps| ensures AllExact(After(steps[..n])) {
        FreshRunExact(steps, n);
      }
    } else {
      var n :| 0 <= n < |steps| && !FreshDraft(After(steps[..n]), steps[n]);
      AfterOne(steps, n);
      if AllExact(After(steps[..n])) {
        StepExactIff(After(steps[..n]), steps[n]);
        assert !AllExact(After(steps[..n + 1]));
      }
    }
  }

  // ---------------------------------------------------------------- a serial once given

  ghost predicate SameNumbers(v: Voucher, w: Voucher) {
    v.company == w.company && v.year == w.year && v.slno == w.slno && v.no == w.no
  }

  lemma {:induction false} StepKeepsNumbers(j: Journal, step: Step, i: nat)
    requires i < |j| && Apply(j, step).Ok? && !(step.PostDraft? && step.id == i)
    ensures i < |Apply(j, step).value| && SameNumbers(j[i], Apply(j, step).value[i])
  {
  }

  lemma {:induction false} NumbersThrough(j: Journal, step: Step, i: nat)
    requires i < |j| && !(step.PostDraft? && step.id == i)
    ensures i < |Through(j, step)| && SameNumbers(j[i], Through(j, step)[i])
  {
    if Apply(j, step).Ok? {
      StepKeepsNumbers(j, step, i);
    }
  }

  /** From any point of a run to any later one, a voucher not posted as a draft in between keeps its numbers. */
  lemma {:induction false} SerialStays(js: seq<Journal>, steps: seq<Step>, n: nat, m: nat, i: nat)
    requires IsTrace(js, steps) && n <= m <= |steps| && i < |js[n]|
    requires forall k | n <= k < m :: !(steps[k].PostDraft? && steps[k].id == i)
    ensures i < |js[m]| && SameNumbers(js[n][i], js[m][i])
  {
    if n < m {
      SerialStays(js, steps, n, m - 1, i);
      assert Goes(js, steps, m - 1);
      NumbersThrough(js[m - 1], steps[m - 1], i);
    }
  }
}
