/**
 The voucher posting state machine (src/common/posting/voucher-posting.service.ts): post, post into a
 draft, retire and restate, cancel by mirror.  A voucher is identified by its position among the
 headers; its legs are kept with it, soft-deleted ones included.  Ledger roles are resolved and the
 type's own number is drawn before a step; the company-wide serial is read here.
 */
module Vouchers {
  import opened Prelude
  import opened Rounding

  datatype Status = Draft | Posted | Cancelled

  datatype StoredLeg = StoredLeg(rowNo: nat, ledger: nat, side: Side, paise: int, deleted: bool)

  datatype Voucher = Voucher(
    company: nat, year: nat, kind: nat, no: Option<nat>, slno: Option<nat>, status: Status,
    revision: nat, reversal: Option<nat>, against: Option<nat>, legs: seq<StoredLeg>)

  type Journal = seq<Voucher>

  /** What a document hands over: company, year, voucher type, and the number drawn in that type. */
  datatype Header = Header(company: nat, year: nat, kind: nat, number: nat)

  datatype Error = NoLegs | Unbalanced | NotADraft | BalancedCheck | NumberCheck | SerialIndex

  // ---------------------------------------------------------------- legs

  /** insertLegs: the kept legs in order, numbered from 1, each rounded on its own. */
  function Stored(legs: seq<Leg>): seq<StoredLeg> {
    if legs == [] then []
    else
      var n := |legs| - 1;
      Stored(legs[..n]) + [StoredLeg(n + 1, legs[n].ledger, legs[n].side, Round2(Abs(legs[n].amount)), false)]
  }

  function Live(legs: seq<StoredLeg>): seq<StoredLeg> {
    if legs == [] then []
    else
      var n := |legs| - 1;
      if legs[n].deleted then Live(legs[..n]) else Live(legs[..n]) + [legs[n]]
  }

  function Retired(legs: seq<StoredLeg>): (r: seq<StoredLeg>)
    ensures |r| == |legs|
  {
    if legs == [] then []
    else
      var n := |legs| - 1;
      Retired(legs[..n]) + [legs[n].(deleted := true)]
  }

  /** Same ledger, same amount, the other side. */
  function Mirrored(legs: seq<StoredLeg>): seq<StoredLeg> {
    if legs == [] then []
    else
      var n := |legs| - 1;
      Mirrored(legs[..n]) + [legs[n].(side := legs[n].side.Other())]
  }

  function Total(legs: seq<StoredLeg>, side: Side): int {
    if legs == [] then 0
    else
      var n := |legs| - 1;
      Total(legs[..n], side) + if legs[n].side == side then legs[n].paise else 0
  }

  // ---------------------------------------------------------------- serials

  /** The highest serial of a company and year over every voucher type, 0 when there is none. */
  function HighestSerial(j: Journal, company: nat, year: nat): nat {
    if j == [] then 0
    else
      var v := j[|j| - 1];
      var rest := HighestSerial(j[..|j| - 1], company, year);
      if v.company == company && v.year == year && v.slno.Some? && v.slno.value > rest then v.slno.value else rest
  }

  /** The database's index on the serial: another voucher of these books that is no draft carries it. */
  predicate SerialTaken(j: Journal, id: nat, n: nat)
    requires id < |j|
  {
    exists i | 0 <= i < |j| :: i != id && InBooks(j[i], j[id].company, j[id].year) && j[i].slno == Some(n)
  }

  /** What the index covers: the vouchers of a company and year that are no drafts. */
  predicate InBooks(v: Voucher, company: nat, year: nat) {
    v.company == company && v.year == year && v.status != Draft
  }

  // ---------------------------------------------------------------- steps

  datatype Step =
    | CreateDraft(header: Header)
    | PostNew(header: Header, legs: seq<Leg>)
    | PostDraft(id: nat, header: Header, legs: seq<Leg>)
    | Retire(id: nat, year: nat)
    | Restate(id: nat, header: Header, legs: seq<Leg>)
    | Cancel(id: nat, year: nat, number: nat, kind: nat)

  /** What postLegs refuses before it looks at any row. */
  function Refused(legs: seq<Leg>): Option<Error> {
    if Kept(legs) == [] then Some(NoLegs)
    else if !Balanced(Kept(legs)) then Some(Unbalanced)
    else None
  }

  /** ck_avh_balanced on a POSTED header, over the totals the trigger keeps. */
  predicate StoredBalances(legs: seq<StoredLeg>) { Total(Live(legs), DR) == Total(Live(legs), CR) }

  predicate Has(j: Journal, id: nat, year: nat) { id < |j| && j[id].year == year }

  function DoPostNew(j: Journal, header: Header, legs: seq<Leg>): Result<Journal, Error> {
    var stored := Stored(Kept(legs));
    if !StoredBalances(stored) then Err(BalancedCheck)
    else
      Ok(j + [Voucher(header.company, header.year, header.kind, Some(header.number),
                      Some(HighestSerial(j, header.company, header.year) + 1), Posted, 0, None, None, stored)])
  }

  function DoPostDraft(j: Journal, id: nat, header: Header, legs: seq<Leg>): Result<Journal, Error> {
    if !Has(j, id, header.year) || j[id].status != Draft then Err(NotADraft)
    else
      var all, slno := j[id].legs + Stored(Kept(legs)), HighestSerial(j, header.company, header.year) + 1;
      if !StoredBalances(all) then Err(BalancedCheck)
      else if SerialTaken(j, id, slno) then Err(SerialIndex)
      else
        Ok(j[id := j[id].(kind := header.kind, no := Some(header.number), status := Posted, legs := all,
                          slno := Some(slno))])
  }

  function DoRetire(j: Journal, id: nat, year: nat): Journal {
    if !Has(j, id, year) || j[id].status != Posted then j
    else j[id := j[id].(status := Draft, legs := Retired(j[id].legs))]
  }

  function DoRestate(j: Journal, id: nat, header: Header, legs: seq<Leg>): Result<Journal, Error> {
    if !Has(j, id, header.year) || j[id].status != Draft then Err(NotADraft)
    else
      var all := j[id].legs + Stored(Kept(legs));
      if !StoredBalances(all) then Err(BalancedCheck)
      else if j[id].no.None? || j[id].slno.None? then Err(NumberCheck)
      else if SerialTaken(j, id, j[id].slno.value) then Err(SerialIndex)
      else Ok(j[id := j[id].(status := Posted, revision := j[id].revision + 1, legs := all)])
  }

  function DoCancel(j: Journal, id: nat, year: nat, number: nat, kind: nat): Result<Journal, Error> {
    if !Has(j, id, year) || j[id].reversal.Some? || j[id].status == Cancelled then Ok(j)
    else if j[id].no.None? || j[id].slno.None? then Err(NumberCheck)
    else if SerialTaken(j, id, j[id].slno.value) then Err(SerialIndex)
    else
      var v := j[id];
      var mirror := Voucher(v.company, v.year, kind, Some(number), Some(HighestSerial(j, v.company, v.year) + 1),
                            Posted, 0, None, Some(id), Mirrored(Live(v.legs)));
      Ok(j[id := v.(status := Cancelled, reversal := Some(|j|))] + [mirror])
  }

  function Apply(j: Journal, step: Step): Result<Journal, Error> {
    match step
    case CreateDraft(h) => Ok(j + [Voucher(h.company, h.year, h.kind, None, None, Draft, 0, None, None, [])])
    case PostNew(h, legs) => if Refused(legs).Some? then Err(Refused(legs).value) else DoPostNew(j, h, legs)
    case PostDraft(id, h, legs) => if Refused(legs).Some? then Err(Refused(legs).value) else DoPostDraft(j, id, h, legs)
    case Retire(id, year) => Ok(DoRetire(j, id, year))
    case Restate(id, h, legs) => if Refused(legs).Some? then Err(Refused(legs).value) else DoRestate(j, id, h, legs)
    case Cancel(id, year, number, kind) => DoCancel(j, id, year, number, kind)
  }

  /** The books after a step; a refused one leaves no trace. */
  function Through(j: Journal, step: Step): Journal {
    match Apply(j, step)
    case Ok(j') => j'
    case Err(_) => j
  }

  /** A run of steps from the empty books. */
  function After(steps: seq<Step>): Journal {
    if steps == [] then [] else Through(After(steps[..|steps| - 1]), steps[|steps| - 1])
  }

  // ---------------------------------------------------------------- lemmas about legs

  lemma {:induction false} LiveAppend(a: seq<StoredLeg>, b: seq<StoredLeg>)
    ensures Live(a + b) == Live(a) + Live(b)
  {
    if b == [] {
      assert a + b == a;
    } else {
      var n := |b| - 1;
      assert (a + b)[..|a + b| - 1] == a + b[..n];
      LiveAppend(a, b[..n]);
    }
  }

  lemma {:induction false} LiveSnoc(rest: seq<StoredLeg>, leg: StoredLeg)
    ensures Live(rest + [leg]) == if leg.deleted then Live(rest) else Live(rest) + [leg]
  {
    assert (rest + [leg])[..|rest|] == rest;
  }

  lemma {:induction false} LiveOfStored(legs: seq<Leg>)
    ensures Live(Stored(legs)) == Stored(legs) && |Stored(legs)| == |legs|
    ensures Numbered(Stored(legs))
  {
    if legs != [] {
      var n := |legs| - 1;
      LiveOfStored(legs[..n]);
      LiveSnoc(Stored(legs[..n]), Stored(legs)[n]);
    }
  }

  lemma {:induction false} LiveOfRetired(legs: seq<StoredLeg>)
    ensures Live(Retired(legs)) == []
  {
    if legs != [] {
      var n := |legs| - 1;
      LiveOfRetired(legs[..n]);
      LiveSnoc(Retired(legs[..n]), legs[n].(deleted := true));
    }
  }

  lemma {:induction false} TotalSnoc(rest: seq<StoredLeg>, leg: StoredLeg, side: Side)
    ensures Total(rest + [leg], side) == Total(rest, side) + if leg.side == side then leg.paise else 0
  {
    assert (rest + [leg])[..|rest|] == rest;
  }

  lemma {:induction false} LiveOfMirrored(legs: seq<StoredLeg>)
    requires Live(legs) == legs
    ensures Live(Mirrored(legs)) == Mirrored(legs) && |Mirrored(legs)| == |legs|
    ensures forall i | 0 <= i < |legs| :: Mirrored(legs)[i] == legs[i].(side := legs[i].side.Other())
  {
    if legs != [] {
      var n := |legs| - 1;
      LiveShorter(legs);
      LiveOfMirrored(legs[..n]);
      LiveSnoc(Mirrored(legs[..n]), legs[n].(side := legs[n].side.Other()));
    }
  }

  lemma {:induction false} TotalOfMirrored(legs: seq<StoredLeg>, side: Side)
    ensures Total(Mirrored(legs), side) == Total(legs, side.Other())
  {
    if legs != [] {
      var n := |legs| - 1;
      TotalOfMirrored(legs[..n], side);
      TotalSnoc(Mirrored(legs[..n]), legs[n].(side := legs[n].side.Other()), side);
    }
  }

  lemma {:induction false} LiveNoLonger(legs: seq<StoredLeg>)
    ensures |Live(legs)| <= |legs|
  {
    if legs != [] { LiveNoLonger(legs[..|legs| - 1]); }
  }

  lemma {:induction false} LiveShorter(legs: seq<StoredLeg>)
    requires legs != [] && Live(legs) == legs
    ensures !legs[|legs| - 1].deleted && Live(legs[..|legs| - 1]) == legs[..|legs| - 1]
  {
    LiveNoLonger(legs[..|legs| - 1]);
  }

  lemma {:induction false} LiveTwice(legs: seq<StoredLeg>)
    ensures Live(Live(legs)) == Live(legs)
  {
    if legs != [] {
      LiveTwice(legs[..|legs| - 1]);
      LiveAppend(Live(legs[..|legs| - 1]), [legs[|legs| - 1]]);
    }
  }

  // ---------------------------------------------------------------- the state invariant

  ghost predicate Numbered(legs: seq<StoredLeg>) {
    forall i | 0 <= i < |legs| :: legs[i].rowNo == i + 1
  }

  /** A draft shows nothing; anything else has legs 1..n in balance and is numbered. */
  ghost predicate VoucherOk(v: Voucher) {
    if v.status == Draft then Live(v.legs) == [] && v.reversal.None?
    else
      && Numbered(Live(v.legs)) && Total(Live(v.legs), DR) == Total(Live(v.legs), CR)
      && v.no.Some? && v.slno.Some?
  }

  /** A voucher is cancelled exactly when it has a mirror, and the two name each other. */
  ghost predicate Linked(j: Journal, i: nat)
    requires i < |j|
  {
    && (j[i].status == Cancelled <==> j[i].reversal.Some?)
    && (j[i].reversal.Some? ==> i < j[i].reversal.value < |j| && j[j[i].reversal.value].against == Some(i))
    && (j[i].against.Some? ==> j[i].against.value < i && j[j[i].against.value].reversal == Some(i))
  }

  ghost predicate LegsAndLinks(j: Journal) {
    && (forall i | 0 <= i < |j| :: VoucherOk(j[i]))
    && (forall i {:trigger Linked(j, i)} | 0 <= i < |j| :: Linked(j, i))
  }

  ghost predicate SerialsDiffer(j: Journal, i: nat, k: nat)
    requires i < |j| && k < |j|
  {
    InBooks(j[i], j[k].company, j[k].year) && j[k].status != Draft && j[i].slno.Some? ==> j[i].slno != j[k].slno
  }

  /** Vouchers of one company and year that are no drafts have different serials. */
  ghost predicate SerialsApart(j: Journal) {
    forall i, k | 0 <= i < k < |j| :: SerialsDiffer(j, i, k)
  }

  /** What holds whatever the callers do. */
  ghost predicate JournalInv(j: Journal) { LegsAndLinks(j) && SerialsApart(j) }

  /** The mirror of voucher i is POSTED and has its legs with the sides swapped. */
  ghost predicate MirroredAt(j: Journal, i: nat)
    requires i < |j|
  {
    j[i].reversal.Some? && j[i].reversal.value < |j| ==>
      var m := j[j[i].reversal.value];
      m.status == Posted && Live(m.legs) == Mirrored(Live(j[i].legs))
  }

  ghost predicate MirrorsHold(j: Journal) {
    forall i {:trigger MirroredAt(j, i)} | 0 <= i < |j| :: MirroredAt(j, i)
  }

  /** The draft is there, and what it would then show balances to the paisa. */
  predicate CanFill(j: Journal, id: nat, year: nat, legs: seq<Leg>) {
    && Refused(legs).None? && Has(j, id, year) && j[id].status == Draft
    && StoredBalances(j[id].legs + Stored(Kept(legs)))
  }

  predicate HasNumbers(v: Voucher) { v.no.Some? && v.slno.Some? }

  /** What a caller can read beforehand -- status, year, numbers, link and the legs handed over -- when a step has an effect. */
  predicate Acts(j: Journal, step: Step) {
    match step
    case CreateDraft(_) => true
    case PostNew(_, legs) => Refused(legs).None? && StoredBalances(Stored(Kept(legs)))
    case PostDraft(id, h, legs) =>
      CanFill(j, id, h.year, legs) && !SerialTaken(j, id, HighestSerial(j, h.company, h.year) + 1)
    case Retire(id, year) => Has(j, id, year) && j[id].status == Posted
    case Restate(id, h, legs) =>
      CanFill(j, id, h.year, legs) && HasNumbers(j[id]) && !SerialTaken(j, id, j[id].slno.value)
    case Cancel(id, year, _, _) =>
      && Has(j, id, year) && j[id].reversal.None? && j[id].status != Cancelled
      && HasNumbers(j[id]) && !SerialTaken(j, id, j[id].slno.value)
  }

  /** A step has an effect if and only if those guards hold. */
  lemma {:induction false} ActsIff(j: Journal, step: Step)
    ensures Acts(j, step) <==> Apply(j, step).Ok? && Apply(j, step).value != j
  {
    match step {
      case CreateDraft(_) => assert Apply(j, step).value[..|j|] == j;
      case PostNew(h, legs) => assert DoPostNew(j, h, legs).Ok? ==> |DoPostNew(j, h, legs).value| > |j|;
      case PostDraft(id, h, legs) => if Refused(legs).None? { PostDraftActs(j, id, h, legs); }
      case Retire(id, year) => assert Acts(j, step) ==> DoRetire(j, id, year)[id].status == Draft;
      case Restate(id, h, legs) => if Refused(legs).None? { RestateActs(j, id, h, legs); }
      case Cancel(id, year, number, kind) => CancelActs(j, id, year, number, kind);
    }
  }

  lemma {:induction false} PostDraftActs(j: Journal, id: nat, h: Header, legs: seq<Leg>)
    requires Refused(legs).None?
    ensures Acts(j, PostDraft(id, h, legs)) <==> DoPostDraft(j, id, h, legs).Ok?
    ensures DoPostDraft(j, id, h, legs).Ok? ==> DoPostDraft(j, id, h, legs).value != j
  {
    assert DoPostDraft(j, id, h, legs).Ok? ==> DoPostDraft(j, id, h, legs).value[id].status == Posted;
  }

  lemma {:induction false} RestateActs(j: Journal, id: nat, h: Header, legs: seq<Leg>)
    requires Refused(legs).None?
    ensures Acts(j, Restate(id, h, legs)) <==> DoRestate(j, id, h, legs).Ok?
    ensures DoRestate(j, id, h, legs).Ok? ==> DoRestate(j, id, h, legs).value != j
  {
    assert DoRestate(j, id, h, legs).Ok? ==> DoRestate(j, id, h, legs).value[id].status == Posted;
  }

  lemma {:induction false} CancelActs(j: Journal, id: nat, year: nat, number: nat, kind: nat)
    ensures var r := DoCancel(j, id, year, number, kind);
      Acts(j, Cancel(id, year, number, kind)) <==> r.Ok? && r.value != j
  {
    var r := DoCancel(j, id, year, number, kind);
    assert Acts(j, Cancel(id, year, number, kind)) ==> r.Ok? && |r.value| > |j|;
  }

  /** The step has an effect, and on a mirror rather than on a document. */
  ghost predicate MovesMirror(j: Journal, step: Step) {
    && (step.PostDraft? || step.Retire? || step.Restate? || step.Cancel?)
    && Acts(j, step) && j[step.id].against.Some?
  }

  /** A voucher has at most one mirror. */
  lemma {:induction false} OneMirror(j: Journal, m: nat, k: nat)
    requires JournalInv(j) && m < |j| && k < |j|
    requires j[m].against.Some? && j[k].against == j[m].against
    ensures m == k
  {
    assert Linked(j, m) && Linked(j, k);
  }

  // ---------------------------------------------------------------- every step keeps the invariant

  lemma {:induction false} AppendKeeps(j: Journal, v: Voucher)
    requires LegsAndLinks(j) && VoucherOk(v) && v.against.None? && v.reversal.None? && v.status != Cancelled
    ensures LegsAndLinks(j + [v])
  {
    var j' := j + [v];
    forall i | 0 <= i < |j'| ensures Linked(j', i) {
      if i < |j| { assert Linked(j, i); }
    }
  }

  /** Changing a voucher without touching its links. */
  lemma {:induction false} UpdateKeeps(j: Journal, id: nat, v: Voucher)
    requires LegsAndLinks(j) && id < |j| && j[id].reversal.None?
    requires VoucherOk(v) && v.against == j[id].against && v.reversal.None? && v.status != Cancelled
    ensures LegsAndLinks(j[id := v])
  {
    var j' := j[id := v];
    forall i | 0 <= i < |j'| ensures Linked(j', i) {
      assert Linked(j, i);
    }
  }

  /** The legs a draft is given are the legs it shows. */
  lemma {:induction false} FilledDraft(v: Voucher, legs: seq<Leg>)
    requires Live(v.legs) == []
    ensures Live(v.legs + Stored(legs)) == Stored(legs) && Numbered(Stored(legs))
  {
    LiveAppend(v.legs, Stored(legs));
    LiveOfStored(legs);
  }

  lemma {:induction false} MirrorOk(v: Voucher, mirror: Voucher)
    requires VoucherOk(v) && mirror.legs == Mirrored(Live(v.legs))
    requires mirror.status == Posted && mirror.no.Some? && mirror.slno.Some?
    ensures VoucherOk(mirror) && Live(mirror.legs) == Mirrored(Live(v.legs))
  {
    LiveTwice(v.legs);
    LiveOfMirrored(Live(v.legs));
    TotalOfMirrored(Live(v.legs), DR);
    TotalOfMirrored(Live(v.legs), CR);
  }

  /** The original cancelled and its mirror appended, each naming the other. */
  ghost predicate MirrorPair(j: Journal, id: nat, v: Voucher, mirror: Voucher)
  {
    && id < |j| && v == j[id].(status := Cancelled, reversal := Some(|j|)) && j[id].reversal.None?
    && mirror.legs == Mirrored(Live(j[id].legs)) && mirror.against == Some(id) && mirror.reversal.None?
    && mirror.status == Posted && mirror.no.Some? && mirror.slno.Some?
    && j[id].no.Some? && j[id].slno.Some?
  }

  lemma {:induction false} CancelKeeps(j: Journal, id: nat, v: Voucher, mirror: Voucher)
    requires LegsAndLinks(j) && MirrorPair(j, id, v, mirror)
    ensures LegsAndLinks(j[id := v] + [mirror])
  {
    MirrorOk(j[id], mirror);
    CancelLinks(j, id, v, mirror);
  }

  lemma {:induction false} CancelLinks(j: Journal, id: nat, v: Voucher, mirror: Voucher)
    requires MirrorPair(j, id, v, mirror)
    requires forall i {:trigger Linked(j, i)} | 0 <= i < |j| :: Linked(j, i)
    ensures var j' := j[id := v] + [mirror];
      forall i {:trigger Linked(j', i)} | 0 <= i < |j'| :: Linked(j', i)
  {
    var j' := j[id := v] + [mirror];
    forall i | 0 <= i < |j'| ensures Linked(j', i) {
      if i < |j| { assert Linked(j, i); }
    }
  }

  lemma {:induction false} PostNewKeeps(j: Journal, h: Header, legs: seq<Leg>)
    requires LegsAndLinks(j) && DoPostNew(j, h, legs).Ok?
    ensures LegsAndLinks(DoPostNew(j, h, legs).value)
  {
    LiveOfStored(Kept(legs));
    AppendKeeps(j, DoPostNew(j, h, legs).value[|j|]);
  }

  lemma {:induction false} PostDraftKeeps(j: Journal, id: nat, h: Header, legs: seq<Leg>)
    requires LegsAndLinks(j) && DoPostDraft(j, id, h, legs).Ok?
    ensures LegsAndLinks(DoPostDraft(j, id, h, legs).value)
  {
    FilledDraft(j[id], Kept(legs));
    UpdateKeeps(j, id, DoPostDraft(j, id, h, legs).value[id]);
  }

  lemma {:induction false} RetireKeeps(j: Journal, id: nat, year: nat)
    requires LegsAndLinks(j)
    ensures LegsAndLinks(DoRetire(j, id, year))
  {
    if Has(j, id, year) && j[id].status == Posted {
      assert Linked(j, id);
      LiveOfRetired(j[id].legs);
      UpdateKeeps(j, id, DoRetire(j, id, year)[id]);
    }
  }

  lemma {:induction false} RestateKeeps(j: Journal, id: nat, h: Header, legs: seq<Leg>)
    requires LegsAndLinks(j) && DoRestate(j, id, h, legs).Ok?
    ensures LegsAndLinks(DoRestate(j, id, h, legs).value)
  {
    FilledDraft(j[id], Kept(legs));
    UpdateKeeps(j, id, DoRestate(j, id, h, legs).value[id]);
  }

  // ---------------------------------------------------------------- serials under the index

  lemma {:induction false} HighestAbove(j: Journal, id: nat)
    requires id < |j| && j[id].slno.Some?
    ensures j[id].slno.value <= HighestSerial(j, j[id].company, j[id].year)
  {
    if id < |j| - 1 {
      HighestAbove(j[..|j| - 1], id);
    }
  }

  ghost predicate Below(v: Voucher, w: Voucher) {
    v.company == w.company && v.year == w.year && v.slno.Some? ==> w.slno.Some? && v.slno.value < w.slno.value
  }

  lemma {:induction false} NextIsAbove(j: Journal, v: Voucher)
    requires v.slno == Some(HighestSerial(j, v.company, v.year) + 1)
    ensures forall i | 0 <= i < |j| :: Below(j[i], v)
  {
    forall i | 0 <= i < |j| ensures Below(j[i], v) {
      if j[i].slno.Some? { HighestAbove(j, i); }
    }
  }

  lemma {:induction false} AppendApart(j: Journal, v: Voucher)
    requires SerialsApart(j) && (v.status == Draft || forall i | 0 <= i < |j| :: Below(j[i], v))
    ensures SerialsApart(j + [v])
  {
    var j' := j + [v];
    forall i, k | 0 <= i < k < |j'| ensures SerialsDiffer(j', i, k) {
      if k < |j| { assert SerialsDiffer(j, i, k); }
      else if v.status != Draft { assert Below(j[i], v); }
    }
  }

  lemma {:induction false} UpdateApart(j: Journal, id: nat, v: Voucher)
    requires SerialsApart(j) && id < |j| && v.company == j[id].company && v.year == j[id].year
    requires v.status == Draft || (v.slno.Some? && !SerialTaken(j, id, v.slno.value))
    ensures SerialsApart(j[id := v])
  {
    var j' := j[id := v];
    forall i, k | 0 <= i < k < |j'| ensures SerialsDiffer(j', i, k) {
      assert SerialsDiffer(j, i, k);
    }
  }

  lemma {:induction false} CancelApart(j: Journal, id: nat, v: Voucher, mirror: Voucher)
    requires SerialsApart(j) && MirrorPair(j, id, v, mirror) && !SerialTaken(j, id, j[id].slno.value)
    requires forall i | 0 <= i < |j| :: Below(j[i], mirror)
    ensures SerialsApart(j[id := v] + [mirror])
  {
    var j' := j[id := v];
    UpdateApart(j, id, v);
    forall i | 0 <= i < |j'| ensures Below(j'[i], mirror) {
      assert Below(j[i], mirror);
    }
    AppendApart(j', mirror);
  }

  lemma {:induction false} PostNewApart(j: Journal, h: Header, legs: seq<Leg>)
    requires SerialsApart(j) && DoPostNew(j, h, legs).Ok?
    ensures SerialsApart(DoPostNew(j, h, legs).value)
  {
    var v := DoPostNew(j, h, legs).value[|j|];
    NextIsAbove(j, v);
    AppendApart(j, v);
  }

  lemma {:induction false} PostDraftApart(j: Journal, id: nat, h: Header, legs: seq<Leg>)
    requires SerialsApart(j) && DoPostDraft(j, id, h, legs).Ok?
    ensures SerialsApart(DoPostDraft(j, id, h, legs).value)
  {
    UpdateApart(j, id, DoPostDraft(j, id, h, legs).value[id]);
  }

  lemma {:induction false} RestateApart(j: Journal, id: nat, h: Header, legs: seq<Leg>)
    requires SerialsApart(j) && DoRestate(j, id, h, legs).Ok?
    ensures SerialsApart(DoRestate(j, id, h, legs).value)
  {
    UpdateApart(j, id, DoRestate(j, id, h, legs).value[id]);
  }

  lemma {:induction false} CancelledApart(j: Journal, id: nat, year: nat, number: nat, kind: nat, j': Journal)
    requires SerialsApart(j) && DoCancel(j, id, year, number, kind) == Ok(j') && j' != j
    ensures SerialsApart(j')
  {
    NextIsAbove(j, j'[|j|]);
    CancelApart(j, id, j'[id], j'[|j|]);
  }

  lemma {:induction false} StepKeepsApart(j: Journal, step: Step)
    requires SerialsApart(j) && Apply(j, step).Ok?
    ensures SerialsApart(Apply(j, step).value)
  {
    var j' := Apply(j, step).value;
    if j' != j {
      match step {
        case CreateDraft(h) => AppendApart(j, j'[|j|]);
        case PostNew(h, legs) => PostNewApart(j, h, legs);
        case PostDraft(id, h, legs) => PostDraftApart(j, id, h, legs);
        case Retire(id, year) => UpdateApart(j, id, j'[id]);
        case Restate(id, h, legs) => RestateApart(j, id, h, legs);
        case Cancel(id, year, number, kind) => CancelledApart(j, id, year, number, kind, j');
      }
    }
  }

  /** A voucher that is no draft has its serial to itself, so the index does not refuse its cancel. */
  lemma {:induction false} OwnSerialFree(j: Journal, id: nat)
    requires SerialsApart(j) && id < |j| && j[id].status != Draft && j[id].slno.Some?
    ensures !SerialTaken(j, id, j[id].slno.value)
  {
    forall i | 0 <= i < |j| && i != id
      ensures !(InBooks(j[i], j[id].company, j[id].year) && j[i].slno == j[id].slno)
    {
      assert i < id ==> SerialsDiffer(j, i, id);
      assert id < i ==> SerialsDiffer(j, id, i);
    }
  }

  lemma {:induction false} StepKeepsLinks(j: Journal, step: Step)
    requires LegsAndLinks(j) && Apply(j, step).Ok?
    ensures LegsAndLinks(Apply(j, step).value)
  {
    match step {
      case CreateDraft(h) => AppendKeeps(j, Apply(j, step).value[|j|]);
      case PostNew(h, legs) => PostNewKeeps(j, h, legs);
      case PostDraft(id, h, legs) => PostDraftKeeps(j, id, h, legs);
      case Retire(id, year) => RetireKeeps(j, id, year);
      case Restate(id, h, legs) => RestateKeeps(j, id, h, legs);
      case Cancel(id, year, number, kind) =>
        var j' := DoCancel(j, id, year, number, kind).value;
        if j' != j { CancelKeeps(j, id, j'[id], j'[|j|]); }
    }
  }

  /** Every step keeps the invariant, on a document or on a mirror. */
  lemma {:induction false} StepKeepsInv(j: Journal, step: Step)
    requires JournalInv(j) && Apply(j, step).Ok?
    ensures JournalInv(Apply(j, step).value)
  {
    StepKeepsLinks(j, step);
    StepKeepsApart(j, step);
  }

  /** Every reachable state satisfies the invariant. */
  lemma {:induction false} RunKeepsInv(steps: seq<Step>)
    ensures JournalInv(After(steps))
  {
    if steps != [] {
      var n := |steps| - 1;
      RunKeepsInv(steps[..n]);
      var j := After(steps[..n]);
      if Apply(j, steps[n]).Ok? { StepKeepsInv(j, steps[n]); }
    }
  }

  // ---------------------------------------------------------------- mirrors stay mirrors

  lemma {:induction false} AppendMirrors(j: Journal, v: Voucher)
    requires JournalInv(j) && MirrorsHold(j) && v.reversal.None?
    ensures MirrorsHold(j + [v])
  {
    var j' := j + [v];
    forall i | 0 <= i < |j'| ensures MirroredAt(j', i) {
      if i < |j| { assert Linked(j, i) && MirroredAt(j, i); }
    }
  }

  /** Changing a document that has no mirror disturbs no mirror. */
  lemma {:induction false} UpdateMirrors(j: Journal, id: nat, v: Voucher)
    requires JournalInv(j) && MirrorsHold(j) && id < |j| && j[id].against.None? && v.reversal.None?
    ensures MirrorsHold(j[id := v])
  {
    var j' := j[id := v];
    forall i | 0 <= i < |j'| ensures MirroredAt(j', i) {
      assert Linked(j, i) && MirroredAt(j, i);
    }
  }

  /** An earlier voucher's mirror is another than the document being cancelled. */
  lemma {:induction false} CancelMirrorsAt(j: Journal, id: nat, v: Voucher, mirror: Voucher, i: nat)
    requires MirrorPair(j, id, v, mirror) && j[id].against.None? && i < |j| && i != id
    requires Linked(j, i) && MirroredAt(j, i)
    ensures MirroredAt(j[id := v] + [mirror], i)
  {
  }

  lemma {:induction false} CancelMirrors(j: Journal, id: nat, v: Voucher, mirror: Voucher)
    requires JournalInv(j) && MirrorsHold(j) && MirrorPair(j, id, v, mirror) && j[id].against.None?
    ensures MirrorsHold(j[id := v] + [mirror])
  {
    var j' := j[id := v] + [mirror];
    forall i | 0 <= i < |j'| ensures MirroredAt(j', i) {
      if i < |j| && i != id {
        assert Linked(j, i) && MirroredAt(j, i);
        CancelMirrorsAt(j, id, v, mirror, i);
      } else if i == id {
        MirrorOk(j[id], mirror);
      }
    }
  }

  /** A mirror that is no longer POSTED is no mirror of its original. */
  lemma {:induction false} MirrorLost(j: Journal, m: nat, j': Journal)
    requires JournalInv(j) && m < |j| && j[m].against.Some?
    requires JournalInv(j') && m < |j'| && j'[m].against == j[m].against && j'[m].status != Posted
    ensures !MirrorsHold(j')
  {
    assert Linked(j', m);
    assert !MirroredAt(j', j'[m].against.value);
  }

  lemma {:induction false} OnMirror(j: Journal, step: Step)
    requires JournalInv(j) && MirrorsHold(j) && MovesMirror(j, step)
    ensures Apply(j, step).Ok? && !MirrorsHold(Apply(j, step).value)
  {
    ActsIff(j, step);
    var j' := Apply(j, step).value;
    assert Linked(j, step.id);
    assert MirroredAt(j, j[step.id].against.value);
    StepKeepsInv(j, step);
    MirrorLost(j, step.id, j');
  }

  lemma {:induction false} OnDocument(j: Journal, step: Step)
    requires JournalInv(j) && MirrorsHold(j) && Apply(j, step).Ok? && !MovesMirror(j, step)
    ensures MirrorsHold(Apply(j, step).value)
  {
    var j' := Apply(j, step).value;
    if j' != j {
      match step {
        case CreateDraft(h) => AppendMirrors(j, j'[|j|]);
        case PostNew(h, legs) => AppendMirrors(j, j'[|j|]);
        case PostDraft(id, h, legs) => UpdateMirrors(j, id, j'[id]);
        case Retire(id, year) =>
          assert Linked(j, id);
          UpdateMirrors(j, id, j'[id]);
        case Restate(id, h, legs) => UpdateMirrors(j, id, j'[id]);
        case Cancel(id, year, number, kind) => CancelMirrors(j, id, j'[id], j'[|j|]);
      }
    }
  }

  /** A step leaves every mirror the swapped image of its original exactly when it has no effect on a mirror. */
  lemma {:induction false} StepMirrorsIff(j: Journal, step: Step)
    requires JournalInv(j) && MirrorsHold(j) && Apply(j, step).Ok?
    ensures MirrorsHold(Apply(j, step).value) <==> !MovesMirror(j, step)
  {
    if MovesMirror(j, step) {
      OnMirror(j, step);
    } else {
      OnDocument(j, step);
    }
  }

  /** A run in which no step has an effect on a mirror: the callers' contract. */
  ghost predicate DocumentRun(steps: seq<Step>) {
    forall n | 0 <= n < |steps| :: !MovesMirror(After(steps[..n]), steps[n])
  }

  lemma {:induction false} AfterOne(steps: seq<Step>, n: nat)
    requires n < |steps|
    ensures After(steps[..n + 1]) == Through(After(steps[..n]), steps[n])
  {
    assert steps[..n + 1][..n] == steps[..n];
  }

  lemma {:induction false} DocumentRunMirrors(steps: seq<Step>, n: nat)
    requires DocumentRun(steps) && n <= |steps|
    ensures MirrorsHold(After(steps[..n]))
  {
    if n > 0 {
      DocumentRunMirrors(steps, n - 1);
      RunKeepsInv(steps[..n - 1]);
      AfterOne(steps, n - 1);
      var j, step := After(steps[..n - 1]), steps[n - 1];
      assert !MovesMirror(j, step);
      if Apply(j, step).Ok? { StepMirrorsIff(j, step); }
    }
  }

  /** In every state of a run mirrors are mirrors, if and only if no step of it has an effect on one. */
  lemma {:induction false} RunMirrorsIff(steps: seq<Step>)
    ensures (forall n | 0 <= n <= |steps| :: MirrorsHold(After(steps[..n]))) <==> DocumentRun(steps)
  {
    if DocumentRun(steps) {
      forall n | 0 <= n <= |steps| ensures MirrorsHold(After(steps[..n])) {
        DocumentRunMirrors(steps, n);
      }
    } else {
      var n :| 0 <= n < |steps| && MovesMirror(After(steps[..n]), steps[n]);
      RunKeepsInv(steps[..n]);
      AfterOne(steps, n);
      MirrorsGo(After(steps[..n]), steps[n], After(steps[..n + 1]));
    }
  }

  lemma {:induction false} MirrorsGo(j: Journal, step: Step, j': Journal)
    requires JournalInv(j) && MovesMirror(j, step) && j' == Through(j, step)
    ensures !MirrorsHold(j) || !MirrorsHold(j')
  {
    if MirrorsHold(j) { OnMirror(j, step); }
  }

  // ---------------------------------------------------------------- cancelling again

  lemma {:induction false} CancelledStays(j: Journal, step: Step, id: nat)
    requires id < |j| && j[id].status == Cancelled && Apply(j, step).Ok?
    ensures id < |Apply(j, step).value| && Apply(j, step).value[id] == j[id]
  {
  }

  lemma {:induction false} CancelledThrough(j: Journal, step: Step, id: nat, v: Voucher)
    requires id < |j| && j[id] == v && v.status == Cancelled
    ensures id < |Through(j, step)| && Through(j, step)[id] == v
  {
    if Apply(j, step).Ok? { CancelledStays(j, step, id); }
  }

  /** The states of a run, from any books. */
  ghost predicate Goes(js: seq<Journal>, steps: seq<Step>, k: nat) {
    k < |steps| && k + 1 < |js| && js[k + 1] == Through(js[k], steps[k])
  }

  ghost predicate IsTrace(js: seq<Journal>, steps: seq<Step>) {
    |js| == |steps| + 1 && forall k | 0 <= k < |steps| :: Goes(js, steps, k)
  }

  lemma {:induction false} TraceIsAfter(js: seq<Journal>, steps: seq<Step>, n: nat)
    requires IsTrace(js, steps) && js[0] == [] && n <= |steps|
    ensures js[n] == After(steps[..n])
  {
    if n == 0 {
      assert steps[..0] == [];
    } else {
      TraceIsAfter(js, steps, n - 1);
      assert Goes(js, steps, n - 1);
      AfterOne(steps, n - 1);
    }
  }

  lemma {:induction false} CancelledForGood(js: seq<Journal>, steps: seq<Step>, n: nat, m: nat, id: nat, v: Voucher)
    requires IsTrace(js, steps) && n <= m <= |steps|
    requires v.status == Cancelled && id < |js[n]| && js[n][id] == v
    ensures id < |js[m]| && js[m][id] == v
  {
    if n < m {
      CancelledForGood(js, steps, n, m - 1, id, v);
      assert Goes(js, steps, m - 1);
      CancelledThrough(js[m - 1], steps[m - 1], id, v);
    }
  }

  /** Once a voucher is cancelled, a cancel of it at any later time, in any number and type, changes nothing. */
  lemma {:induction false} RepeatCancel(
    js: seq<Journal>, steps: seq<Step>, n: nat, m: nat, id: nat, year: nat, number: nat, kind: nat)
    requires IsTrace(js, steps) && n <= m <= |steps| && id < |js[n]| && js[n][id].status == Cancelled
    ensures DoCancel(js[m], id, year, number, kind) == Ok(js[m])
  {
    CancelledForGood(js, steps, n, m, id, js[n][id]);
  }

  // ---------------------------------------------------------------- the database check

  lemma {:induction false} CheckPassesNew(j: Journal, h: Header, legs: seq<Leg>)
    requires WholePaise(Kept(legs)) && Balanced(Kept(legs))
    ensures DoPostNew(j, h, legs).Ok?
  {
    WholeStored(Kept(legs));
    LiveOfStored(Kept(legs));
  }

  lemma {:induction false} CheckPassesDraft(v: Voucher, legs: seq<Leg>)
    requires WholePaise(Kept(legs)) && Balanced(Kept(legs)) && Live(v.legs) == []
    ensures StoredBalances(v.legs + Stored(Kept(legs)))
  {
    WholeStored(Kept(legs));
    FilledDraft(v, Kept(legs));
  }

  /** With amounts in whole paise the database check never fires: the service has already refused. */
  lemma {:induction false} CheckNeverFires(j: Journal, step: Step)
    requires JournalInv(j)
    requires (step.PostNew? || step.PostDraft? || step.Restate?) && WholePaise(Kept(step.legs))
    ensures Apply(j, step) != Err(BalancedCheck)
  {
    if Refused(step.legs).None? {
      if step.PostNew? {
        CheckPassesNew(j, step.header, step.legs);
      } else if step.id < |j| && j[step.id].status == Draft {
        CheckPassesDraft(j[step.id], step.legs);
      }
    }
  }

  lemma {:induction false} WholeStored(legs: seq<Leg>)
    requires WholePaise(legs) && Balanced(legs)
    ensures Total(Stored(legs), DR) == Total(Stored(legs), CR)
  {
    WholePaiseBalance(legs);
    StoredTotal(legs, DR);
    StoredTotal(legs, CR);
  }

  lemma {:induction false} StoredTotal(legs: seq<Leg>, side: Side)
    ensures Total(Stored(legs), side) == SidePaise(legs, side)
  {
    if legs != [] {
      var n := |legs| - 1;
      StoredTotal(legs[..n], side);
      TotalSnoc(Stored(legs[..n]), Stored(legs)[|Stored(legs)| - 1], side);
    }
  }
}
