/**
 The books refine a plain ledger: a map from each standing document to the legs it has now.
 POSTED and CANCELLED legs count, DRAFT ones never do (src/common/party/party-balance.service.ts).
 */
module VoucherBooks {
  import opened Prelude
  import opened Rounding
  import opened Vouchers

  /** A ledger's movement in a set of legs, debit positive. */
  ghost function Signed(legs: seq<StoredLeg>, ledger: nat): int {
    if legs == [] then 0
    else
      var n := |legs| - 1;
      var leg := legs[n];
      Signed(legs[..n], ledger)
      + if leg.ledger != ledger then 0 else if leg.side == DR then leg.paise else -leg.paise
  }

  ghost function Counted(v: Voucher, ledger: nat): int {
    if v.status == Draft then 0 else Signed(Live(v.legs), ledger)
  }

  ghost function Sum(j: Journal, f: Voucher -> int): int {
    if j == [] then 0 else Sum(j[..|j| - 1], f) + f(j[|j| - 1])
  }

  /** A ledger's balance as the reports count it. */
  ghost function Balance(j: Journal, ledger: nat): int { Sum(j, v => Counted(v, ledger)) }

  // ---------------------------------------------------------------- the plain ledger

  type Documents = map<nat, seq<StoredLeg>>

  /** A posted document, not a mirror, stands. */
  ghost predicate Stands(v: Voucher) { v.status == Posted && v.against.None? }

  ghost function StandingIn(j: Journal): Documents {
    map i: nat | i < |j| && Stands(j[i]) :: Live(j[i].legs)
  }

  /** A ledger's balance over documents 0 .. n-1. */
  ghost function OfDocuments(docs: Documents, n: nat, ledger: nat): int {
    if n == 0 then 0
    else OfDocuments(docs, n - 1, ledger) + if n - 1 in docs then Signed(docs[n - 1], ledger) else 0
  }

  /** What a step means on the plain ledger; `next` is the id a new document gets. */
  ghost function Meaning(docs: Documents, step: Step, next: nat): Documents {
    match step
    case CreateDraft(_) => docs
    case PostNew(_, legs) => docs[next := Stored(Kept(legs))]
    case PostDraft(id, _, legs) => docs[id := Stored(Kept(legs))]
    case Restate(id, _, legs) => docs[id := Stored(Kept(legs))]
    case Retire(id, _) => docs - {id}
    case Cancel(id, _, _, _) => docs - {id}
  }

  /** The plain ledger after a run: steps that were refused, did nothing or moved a mirror mean nothing. */
  ghost function Ledger(steps: seq<Step>): Documents {
    if steps == [] then map[]
    else
      var n := |steps| - 1;
      var j := After(steps[..n]);
      if Concerned(j, steps[n]) then Meaning(Ledger(steps[..n]), steps[n], |j|) else Ledger(steps[..n])
  }

  /** The step has an effect, and not on a mirror. */
  ghost predicate Concerned(j: Journal, step: Step) { Acts(j, step) && !MovesMirror(j, step) }

  lemma {:induction false} StandingAppend(j: Journal, v: Voucher)
    ensures StandingIn(j + [v]) == if Stands(v) then StandingIn(j)[|j| := Live(v.legs)] else StandingIn(j)
  {
    var j' := j + [v];
    assert forall i: nat | i < |j| :: j'[i] == j[i];
  }

  lemma {:induction false} StandingUpdate(j: Journal, id: nat, v: Voucher)
    requires id < |j|
    ensures StandingIn(j[id := v]) == if Stands(v) then StandingIn(j)[id := Live(v.legs)] else StandingIn(j) - {id}
  {
  }

  lemma {:induction false} PostNewRefines(j: Journal, h: Header, legs: seq<Leg>)
    requires DoPostNew(j, h, legs).Ok?
    ensures StandingIn(DoPostNew(j, h, legs).value) == StandingIn(j)[|j| := Stored(Kept(legs))]
  {
    LiveOfStored(Kept(legs));
    StandingAppend(j, DoPostNew(j, h, legs).value[|j|]);
  }

  lemma {:induction false} CancelRefines(j: Journal, id: nat, year: nat, number: nat, kind: nat)
    requires DoCancel(j, id, year, number, kind).Ok? && DoCancel(j, id, year, number, kind).value != j
    ensures StandingIn(DoCancel(j, id, year, number, kind).value) == StandingIn(j) - {id}
  {
    var j' := DoCancel(j, id, year, number, kind).value;
    StandingUpdate(j, id, j'[id]);
    StandingAppend(j[id := j'[id]], j'[|j|]);
  }

  /** What the documents become, step by step, with a mirror's own steps leaving them alone. */
  lemma {:induction false} EffectRefines(j: Journal, step: Step)
    requires JournalInv(j) && Apply(j, step).Ok? && Apply(j, step).value != j
    ensures StandingIn(Apply(j, step).value)
         == if (step.PostDraft? || step.Restate?) && j[step.id].against.Some? then StandingIn(j) else Meaning(StandingIn(j), step, |j|)
  {
    var j' := Apply(j, step).value;
    match step {
      case CreateDraft(h) => StandingAppend(j, j'[|j|]);
      case PostNew(h, legs) => PostNewRefines(j, h, legs);
      case PostDraft(id, h, legs) => FillRefines(j, id, Kept(legs), j'[id]);
      case Restate(id, h, legs) => FillRefines(j, id, Kept(legs), j'[id]);
      case Retire(id, year) => StandingUpdate(j, id, j'[id]);
      case Cancel(id, year, number, kind) => CancelRefines(j, id, year, number, kind);
    }
  }

  /** Each step changes the standing documents as the plain ledger says. */
  lemma {:induction false} StepRefines(j: Journal, step: Step)
    requires JournalInv(j) && Apply(j, step).Ok?
    ensures StandingIn(Apply(j, step).value) == if Concerned(j, step) then Meaning(StandingIn(j), step, |j|) else StandingIn(j)
  {
    ActsIff(j, step);
    if Acts(j, step) {
      EffectRefines(j, step);
      EffectMeant(j, step, StandingIn(j));
    }
  }

  lemma {:induction false} EffectMeant(j: Journal, step: Step, docs: Documents)
    requires Acts(j, step) && docs == StandingIn(j)
    ensures (if (step.PostDraft? || step.Restate?) && j[step.id].against.Some? then docs else Meaning(docs, step, |j|))
         == (if Concerned(j, step) then Meaning(docs, step, |j|) else docs)
  {
    if MovesMirror(j, step) { MirrorUnmeant(j, docs, step); }
  }

  /** To documents that do not include it, retiring or cancelling a voucher means nothing. */
  lemma {:induction false} MirrorUnmeant(j: Journal, docs: Documents, step: Step)
    requires MovesMirror(j, step) && docs == StandingIn(j)
    ensures step.Retire? || step.Cancel? ==> Meaning(docs, step, |j|) == docs
  {
    assert step.id !in docs;
  }

  lemma {:induction false} FillRefines(j: Journal, id: nat, legs: seq<Leg>, v: Voucher)
    requires JournalInv(j) && id < |j| && j[id].status == Draft
    requires v.legs == j[id].legs + Stored(legs) && v.status == Posted && v.against == j[id].against
    ensures StandingIn(j[id := v]) == if v.against.None? then StandingIn(j)[id := Stored(legs)] else StandingIn(j)
  {
    FilledDraft(j[id], legs);
    StandingUpdate(j, id, v);
  }

  // ---------------------------------------------------------------- sums

  lemma {:induction false} SumUpdate(j: Journal, id: nat, v: Voucher, f: Voucher -> int)
    requires id < |j|
    ensures Sum(j[id := v], f) == Sum(j, f) - f(j[id]) + f(v)
  {
    var n := |j| - 1;
    if id == n {
      assert j[id := v][..n] == j[..n];
    } else {
      assert j[id := v][..n] == j[..n][id := v];
      SumUpdate(j[..n], id, v, f);
    }
  }

  lemma {:induction false} SignedMirrored(legs: seq<StoredLeg>, ledger: nat)
    requires Live(legs) == legs
    ensures Signed(Mirrored(legs), ledger) == -Signed(legs, ledger)
  {
    if legs != [] {
      var n := |legs| - 1;
      LiveShorter(legs);
      SignedMirrored(legs[..n], ledger);
      LiveOfMirrored(legs[..n]);
      assert Mirrored(legs)[..n] == Mirrored(legs[..n]);
    }
  }

  /** What a voucher counts for beyond what it stands for. */
  ghost function Gap(v: Voucher, ledger: nat): int {
    Counted(v, ledger) - if Stands(v) then Signed(Live(v.legs), ledger) else 0
  }

  ghost function Gaps(j: Journal, ledger: nat): int { Sum(j, v => Gap(v, ledger)) }

  lemma {:induction false} BalanceSplits(j: Journal, ledger: nat)
    ensures Balance(j, ledger) == OfDocuments(StandingIn(j), |j|, ledger) + Gaps(j, ledger)
  {
    if j != [] {
      var n := |j| - 1;
      BalanceSplits(j[..n], ledger);
      SameDocuments(StandingIn(j), StandingIn(j[..n]), n, ledger);
    }
  }

  lemma {:induction false} SameDocuments(a: Documents, b: Documents, n: nat, ledger: nat)
    requires forall i: nat | i < n :: (i in a <==> i in b) && (i in a ==> a[i] == b[i])
    ensures OfDocuments(a, n, ledger) == OfDocuments(b, n, ledger)
  {
    if n > 0 { SameDocuments(a, b, n - 1, ledger); }
  }

  // ---------------------------------------------------------------- what each step does to the gap

  /** What a step adds to a ledger's balance beyond what it means to the documents. */
  ghost function Drift(j: Journal, step: Step, ledger: nat): int {
    if !MovesMirror(j, step) then 0
    else if step.Retire? || step.Cancel? then -Signed(Live(j[step.id].legs), ledger)
    else Signed(Stored(Kept(step.legs)), ledger)
  }

  lemma {:induction false} SumOfUpdate(j: Journal, id: nat, v: Voucher, ledger: nat)
    requires id < |j|
    ensures Gaps(j[id := v], ledger) == Gaps(j, ledger) - Gap(j[id], ledger) + Gap(v, ledger)
  {
    SumUpdate(j, id, v, v => Gap(v, ledger));
  }

  lemma {:induction false} SumOfAppend(j: Journal, v: Voucher, ledger: nat)
    ensures Gaps(j + [v], ledger) == Gaps(j, ledger) + Gap(v, ledger)
  {
    assert (j + [v])[..|j|] == j;
  }

  lemma {:induction false} CancelGap(j: Journal, id: nat, year: nat, number: nat, kind: nat, ledger: nat)
    requires JournalInv(j) && DoCancel(j, id, year, number, kind).Ok? && DoCancel(j, id, year, number, kind).value != j
    ensures Gaps(DoCancel(j, id, year, number, kind).value, ledger)
         == Gaps(j, ledger) - if j[id].against.None? then 0 else Signed(Live(j[id].legs), ledger)
  {
    var j' := DoCancel(j, id, year, number, kind).value;
    var v, mirror := j'[id], j'[|j|];
    assert j' == j[id := v] + [mirror];
    SumOfAppend(j[id := v], mirror, ledger);
    SumOfUpdate(j, id, v, ledger);
    LiveTwice(j[id].legs);
    LiveOfMirrored(Live(j[id].legs));
    SignedMirrored(Live(j[id].legs), ledger);
    assert VoucherOk(j[id]);
  }

  lemma {:induction false} RetireGap(j: Journal, id: nat, year: nat, ledger: nat)
    requires JournalInv(j) && DoRetire(j, id, year) != j
    ensures Gaps(DoRetire(j, id, year), ledger)
         == Gaps(j, ledger) - if j[id].against.None? then 0 else Signed(Live(j[id].legs), ledger)
  {
    SumOfUpdate(j, id, DoRetire(j, id, year)[id], ledger);
  }

  lemma {:induction false} FillGap(j: Journal, id: nat, legs: seq<Leg>, v: Voucher, ledger: nat)
    requires JournalInv(j) && id < |j| && j[id].status == Draft
    requires v.legs == j[id].legs + Stored(legs) && v.status == Posted && v.against == j[id].against
    ensures Gaps(j[id := v], ledger) == Gaps(j, ledger) + if v.against.None? then 0 else Signed(Stored(legs), ledger)
  {
    FilledDraft(j[id], legs);
    SumOfUpdate(j, id, v, ledger);
  }

  /** The drift of a step with an effect, by its kind. */
  lemma {:induction false} EffectGap(j: Journal, step: Step, ledger: nat)
    requires JournalInv(j) && Apply(j, step).Ok? && Apply(j, step).value != j
    ensures Gaps(Apply(j, step).value, ledger)
         == Gaps(j, ledger)
            + if step.CreateDraft? || step.PostNew? || j[step.id].against.None? then 0
              else if step.Retire? || step.Cancel? then -Signed(Live(j[step.id].legs), ledger)
              else Signed(Stored(Kept(step.legs)), ledger)
  {
    var j' := Apply(j, step).value;
    match step {
      case CreateDraft(h) => SumOfAppend(j, j'[|j|], ledger);
      case PostNew(h, legs) => SumOfAppend(j, j'[|j|], ledger);
      case PostDraft(id, h, legs) => FillGap(j, id, Kept(legs), j'[id], ledger);
      case Restate(id, h, legs) => FillGap(j, id, Kept(legs), j'[id], ledger);
      case Retire(id, year) => RetireGap(j, id, year, ledger);
      case Cancel(id, year, number, kind) => CancelGap(j, id, year, number, kind, ledger);
    }
  }

  /** The gap of a ledger moves by exactly the drift of the step. */
  lemma {:induction false} StepGap(j: Journal, step: Step, ledger: nat)
    requires JournalInv(j) && Apply(j, step).Ok?
    ensures Gaps(Apply(j, step).value, ledger) == Gaps(j, ledger) + Drift(j, step, ledger)
  {
    ActsIff(j, step);
    if Acts(j, step) {
      EffectGap(j, step, ledger);
      DriftOfEffect(j, step, ledger);
    }
  }

  lemma {:induction false} DriftOfEffect(j: Journal, step: Step, ledger: nat)
    requires Acts(j, step)
    ensures Drift(j, step, ledger)
         == if step.CreateDraft? || step.PostNew? || j[step.id].against.None? then 0
            else if step.Retire? || step.Cancel? then -Signed(Live(j[step.id].legs), ledger)
            else Signed(Stored(Kept(step.legs)), ledger)
  {
  }

  // ---------------------------------------------------------------- whole runs

  /** The drift of every step of a run, refused ones counting nothing. */
  ghost function TotalDrift(steps: seq<Step>, ledger: nat): int {
    if steps == [] then 0
    else
      var n := |steps| - 1;
      TotalDrift(steps[..n], ledger) + Drift(After(steps[..n]), steps[n], ledger)
  }

  lemma {:induction false} RunRefines(steps: seq<Step>)
    ensures StandingIn(After(steps)) == Ledger(steps)
  {
    if steps != [] {
      var n := |steps| - 1;
      RunRefines(steps[..n]);
      RunKeepsInv(steps[..n]);
      RefinesThrough(After(steps[..n]), steps[n], After(steps));
    }
  }

  lemma {:induction false} RefinesThrough(j: Journal, step: Step, j': Journal)
    requires JournalInv(j) && j' == Through(j, step)
    ensures StandingIn(j') == if Concerned(j, step) then Meaning(StandingIn(j), step, |j|) else StandingIn(j)
  {
    ActsIff(j, step);
    if Apply(j, step).Ok? { StepRefines(j, step); }
  }

  lemma {:induction false} RunGaps(steps: seq<Step>, ledger: nat)
    ensures Gaps(After(steps), ledger) == TotalDrift(steps, ledger)
  {
    if steps != [] {
      var n := |steps| - 1;
      RunGaps(steps[..n], ledger);
      RunKeepsInv(steps[..n]);
      GapThrough(After(steps[..n]), steps[n], After(steps), ledger);
    }
  }

  lemma {:induction false} GapThrough(j: Journal, step: Step, j': Journal, ledger: nat)
    requires JournalInv(j) && j' == Through(j, step)
    ensures Gaps(j', ledger) == Gaps(j, ledger) + Drift(j, step, ledger)
  {
    ActsIff(j, step);
    if Apply(j, step).Ok? { StepGap(j, step, ledger); }
  }

  lemma {:induction false} NoDrift(steps: seq<Step>, ledger: nat)
    requires DocumentRun(steps)
    ensures TotalDrift(steps, ledger) == 0
  {
    if steps != [] {
      var n := |steps| - 1;
      forall m | 0 <= m < n ensures !MovesMirror(After(steps[..n][..m]), steps[..n][m]) {
        assert steps[..n][..m] == steps[..m];
      }
      NoDrift(steps[..n], ledger);
    }
  }

  /**
   The books refine the plain ledger: after any run of steps the standing documents are the plain ledger's,
   and every ledger's counted balance is the sum of their legs plus what steps on mirrors made it drift.
   When every step keeps to documents there is no drift: a cancelled document contributes nothing, an
   amended one only its new legs.
   */
  lemma {:induction false} BooksRefineLedger(steps: seq<Step>, ledger: nat)
    ensures StandingIn(After(steps)) == Ledger(steps)
    ensures Balance(After(steps), ledger)
         == OfDocuments(Ledger(steps), |After(steps)|, ledger) + TotalDrift(steps, ledger)
    ensures DocumentRun(steps) ==> Balance(After(steps), ledger) == OfDocuments(Ledger(steps), |After(steps)|, ledger)
  {
    RunGaps(steps, ledger);
    RunRefines(steps);
    BalanceSplits(After(steps), ledger);
    if DocumentRun(steps) { NoDrift(steps, ledger); }
  }

  /** A cancelled voucher and its mirror count for exactly zero on every ledger, while mirrors are mirrors. */
  lemma {:induction false} CancelledCountsZero(j: Journal, id: nat, ledger: nat)
    requires JournalInv(j) && MirrorsHold(j) && id < |j| && j[id].status == Cancelled
    ensures var m := j[id].reversal;
      m.Some? && m.value < |j| && Counted(j[id], ledger) + Counted(j[m.value], ledger) == 0
  {
    assert Linked(j, id) && MirroredAt(j, id);
    LiveTwice(j[id].legs);
    SignedMirrored(Live(j[id].legs), ledger);
  }

  // ---------------------------------------------------------------- when books and documents agree

  /** The books and the standing documents say the same about a ledger. */
  ghost predicate Agree(j: Journal, ledger: nat) { Balance(j, ledger) == OfDocuments(StandingIn(j), |j|, ledger) }

  ghost predicate InAgreement(j: Journal) { forall ledger :: Agree(j, ledger) }

  /** The step moves no mirror, or moves legs that net to zero on every ledger. */
  ghost predicate Harmless(j: Journal, step: Step) { forall ledger :: Drift(j, step, ledger) == 0 }

  /** From books in agreement a step leaves them in agreement if and only if it is harmless. */
  lemma {:induction false} StepAgreesIff(j: Journal, step: Step)
    requires JournalInv(j) && InAgreement(j) && Apply(j, step).Ok?
    ensures InAgreement(Apply(j, step).value) <==> Harmless(j, step)
  {
    var j' := Apply(j, step).value;
    forall ledger ensures Agree(j', ledger) <==> Drift(j, step, ledger) == 0 {
      assert Agree(j, ledger);
      BalanceSplits(j, ledger);
      BalanceSplits(j', ledger);
      StepGap(j, step, ledger);
    }
    if ledger :| Drift(j, step, ledger) != 0 {
      assert !Agree(j', ledger);
    }
  }

  lemma {:induction false} HarmlessAgrees(steps: seq<Step>, n: nat)
    requires n <= |steps| && forall m | 0 <= m < |steps| :: Harmless(After(steps[..m]), steps[m])
    ensures InAgreement(After(steps[..n]))
  {
    if n == 0 {
      assert steps[..0] == [];
    } else {
      HarmlessAgrees(steps, n - 1);
      RunKeepsInv(steps[..n - 1]);
      AfterOne(steps, n - 1);
      AgreementStays(After(steps[..n - 1]), steps[n - 1], After(steps[..n]));
    }
  }

  lemma {:induction false} AgreementStays(j: Journal, step: Step, j': Journal)
    requires JournalInv(j) && InAgreement(j) && Harmless(j, step) && j' == Through(j, step)
    ensures InAgreement(j')
  {
    if Apply(j, step).Ok? { StepAgreesIff(j, step); }
  }

  /** Books and documents agree in every state of a run, if and only if every step of it is harmless. */
  lemma {:induction false} RunAgreesIff(steps: seq<Step>)
    ensures (forall n | 0 <= n <= |steps| :: InAgreement(After(steps[..n])))
       <==> (forall n | 0 <= n < |steps| :: Harmless(After(steps[..n]), steps[n]))
  {
    if forall n | 0 <= n < |steps| :: Harmless(After(steps[..n]), steps[n]) {
      forall n | 0 <= n <= |steps| ensures InAgreement(After(steps[..n])) {
        HarmlessAgrees(steps, n);
      }
    } else {
      var n :| 0 <= n < |steps| && !Harmless(After(steps[..n]), steps[n]);
      RunKeepsInv(steps[..n]);
      AfterOne(steps, n);
      AgreementGoes(After(steps[..n]), steps[n], After(steps[..n + 1]));
    }
  }

  lemma {:induction false} AgreementGoes(j: Journal, step: Step, j': Journal)
    requires JournalInv(j) && !Harmless(j, step) && j' == Through(j, step)
    ensures !InAgreement(j) || !InAgreement(j')
  {
    ActsIff(j, step);
    if InAgreement(j) { StepAgreesIff(j, step); }
  }

  ghost predicate NetsToZero(v: Voucher, ledger: nat) { Signed(Live(v.legs), ledger) == 0 }

  /** For a cancel or a retire that means: its target is no mirror, or a mirror that nets to zero. */
  lemma {:induction false} HarmlessIff(j: Journal, step: Step)
    requires (step.Cancel? || step.Retire?) && Acts(j, step)
    ensures Harmless(j, step) <==> j[step.id].against.None? || forall ledger :: NetsToZero(j[step.id], ledger)
  {
    forall ledger ensures Drift(j, step, ledger) == 0 <==> j[step.id].against.None? || NetsToZero(j[step.id], ledger) {
    }
    if ledger :| !NetsToZero(j[step.id], ledger) {
      assert Drift(j, step, ledger) == 0 <==> j[step.id].against.None?;
    }
  }

  /** A cancelled document's mirror: POSTED, numbered, and worth the document's legs negated. */
  lemma {:induction false} MirrorWritten(j: Journal, id: nat, year: nat, n: nat, kind: nat, ledger: nat)
    requires JournalInv(j) && InAgreement(j) && Has(j, id, year) && Stands(j[id])
    ensures DoCancel(j, id, year, n, kind).Ok?
    ensures var once := DoCancel(j, id, year, n, kind).value;
      && JournalInv(once) && InAgreement(once) && |once| == |j| + 1 && once[id].status == Cancelled
      && Has(once, |j|, year) && once[|j|].status == Posted && once[|j|].against == Some(id) && once[|j|].reversal.None?
      && Signed(Live(once[|j|].legs), ledger) == -Signed(Live(j[id].legs), ledger)
  {
    assert Linked(j, id) && VoucherOk(j[id]);
    OwnSerialFree(j, id);
    var step := Cancel(id, year, n, kind);
    StepAgreesIff(j, step);
    StepKeepsInv(j, step);
    LiveTwice(j[id].legs);
    LiveOfMirrored(Live(j[id].legs));
    SignedMirrored(Live(j[id].legs), ledger);
  }

  lemma {:induction false} DriftDisagrees(j: Journal, step: Step, ledger: nat)
    requires JournalInv(j) && Agree(j, ledger) && Apply(j, step).Ok? && Drift(j, step, ledger) != 0
    ensures !Agree(Apply(j, step).value, ledger)
  {
    BalanceSplits(j, ledger);
    BalanceSplits(Apply(j, step).value, ledger);
    StepGap(j, step, ledger);
  }

  /**
   Cancelling a document and then cancelling or retiring its mirror: the books count the document again,
   though it is cancelled.
   */
  lemma {:induction false} MovingMirrorReinstates(
    j: Journal, id: nat, year: nat, n: nat, kind: nat, again: Step, ledger: nat)
    requires JournalInv(j) && InAgreement(j)
    requires Has(j, id, year) && Stands(j[id]) && !NetsToZero(j[id], ledger)
    requires again == Retire(|j|, year) || (again.Cancel? && again.id == |j| && again.year == year)
    ensures DoCancel(j, id, year, n, kind).Ok?
    ensures var once := DoCancel(j, id, year, n, kind).value;
      && InAgreement(once) && Apply(once, again).Ok?
      && id !in StandingIn(Apply(once, again).value) && !Agree(Apply(once, again).value, ledger)
  {
    MirrorWritten(j, id, year, n, kind, ledger);
    var once := DoCancel(j, id, year, n, kind).value;
    assert VoucherOk(once[|j|]);
    OwnSerialFree(once, |j|);
    CancelledStays(once, again, id);
    assert Apply(once, again).value[|j|].status != Posted;
    assert Agree(once, ledger);
    DriftDisagrees(once, again, ledger);
  }
}
