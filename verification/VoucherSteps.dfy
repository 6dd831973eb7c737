/**
 What each step of the posting service (src/common/posting/voucher-posting.service.ts) writes, field by field, and
 how it moves the ledgers: stated by the legs and numbers handed over and by the fields of the vouchers.
 */
module VoucherSteps {
  import opened Prelude
  import opened Rounding
  import opened Vouchers
  import opened VoucherBooks

  // ---------------------------------------------------------------- legs

  /** Each leg is written on its own ledger and side, its amount rounded to paise without its sign, numbered from 1. */
  lemma {:induction false} StoredAt(legs: seq<Leg>, i: nat)
    requires i < |legs|
    ensures |Stored(legs)| == |legs|
    ensures var s := Stored(legs)[i];
      && s.ledger == legs[i].ledger && s.side == legs[i].side && s.paise == Round2(Abs(legs[i].amount))
      && s.rowNo == i + 1 && !s.deleted
  {
    var n := |legs| - 1;
    StoredLength(legs[..n]);
    if i < n { StoredAt(legs[..n], i); }
  }

  lemma {:induction false} StoredLength(legs: seq<Leg>)
    ensures |Stored(legs)| == |legs|
  {
    if legs != [] { StoredLength(legs[..|legs| - 1]); }
  }

  /** A mirror's legs: those that are not deleted, on the other side and otherwise as they are. */
  lemma {:induction false} MirroredLeg(legs: seq<StoredLeg>, i: nat)
    requires i < |Live(legs)|
    ensures |Mirrored(Live(legs))| == |Live(legs)|
    ensures var was, m := Live(legs)[i], Mirrored(Live(legs))[i];
      && m.ledger == was.ledger && m.paise == was.paise && m.rowNo == was.rowNo && !m.deleted
      && (m.side == DR <==> was.side == CR)
  {
    LiveTwice(legs);
    LiveOfMirrored(Live(legs));
    LiveLeg(legs, i);
  }

  lemma {:induction false} LiveLeg(legs: seq<StoredLeg>, i: nat)
    requires i < |Live(legs)|
    ensures !Live(legs)[i].deleted
  {
    var before := legs[..|legs| - 1];
    if i < |Live(before)| { LiveLeg(before, i); }
  }

  /** The legs that count: those not deleted, in their order. */
  lemma {:induction false} LivePlaces(legs: seq<StoredLeg>) returns (at: seq<nat>)
    ensures |at| == |Live(legs)| && (forall k, l | 0 <= k < l < |at| :: at[k] < at[l])
    ensures forall k | 0 <= k < |at| :: at[k] < |legs| && Live(legs)[k] == legs[at[k]]
    ensures forall i: nat :: i in at <==> i < |legs| && !legs[i].deleted
  {
    at := [];
    if legs != [] {
      var n := |legs| - 1;
      at := LivePlaces(legs[..n]);
      assert forall i | 0 <= i < n :: legs[..n][i] == legs[i];
      if !legs[n].deleted { at := at + [n]; }
    }
  }

  lemma {:induction false} RetiredAt(legs: seq<StoredLeg>, i: nat)
    requires i < |legs|
    ensures Retired(legs)[i] == legs[i].(deleted := true)
  {
    if i < |legs| - 1 { RetiredAt(legs[..|legs| - 1], i); }
  }

  /** The total of a side: each leg on it, without its sign. */
  lemma {:induction false} SideMeaning(legs: seq<Leg>, l: Leg, side: Side)
    ensures SideTotal([], side) == 0.0
    ensures SideTotal(legs + [l], side)
         == SideTotal(legs, side) + if l.side != side then 0.0 else if l.amount < 0.0 then -l.amount else l.amount
  {
    assert (legs + [l])[..|legs|] == legs;
  }

  // ---------------------------------------------------------------- what moves the ledgers

  /** What legs put on a ledger, debit positive: those that name it, each rounded on its own. */
  ghost function LegsMove(legs: seq<Leg>, ledger: nat): int {
    if legs == [] then 0
    else
      var l := legs[|legs| - 1];
      var paise := Round2(Abs(l.amount));
      LegsMove(legs[..|legs| - 1], ledger)
      + if l.ledger != ledger then 0 else if l.side == DR then paise else -paise
  }

  lemma {:induction false} SignedSnoc(legs: seq<StoredLeg>, leg: StoredLeg, ledger: nat)
    ensures Signed(legs + [leg], ledger)
         == Signed(legs, ledger) + if leg.ledger != ledger then 0 else if leg.side == DR then leg.paise else -leg.paise
  {
    assert (legs + [leg])[..|legs|] == legs;
  }

  lemma {:induction false} StoredMoves(legs: seq<Leg>, ledger: nat)
    ensures Signed(Stored(legs), ledger) == LegsMove(legs, ledger)
  {
    if legs != [] {
      var n := |legs| - 1;
      StoredMoves(legs[..n], ledger);
      StoredAt(legs, n);
      SignedSnoc(Stored(legs[..n]), Stored(legs)[|Stored(legs)| - 1], ledger);
      LiveOfStored(legs[..n]);
    }
  }

  /** On the plain ledger a posted, restated or drafted document is worth exactly its own legs, ledger by ledger. */
  lemma {:induction false} DocumentMoves(docs: Documents, step: Step, next: nat, ledger: nat)
    requires step.PostNew? || step.PostDraft? || step.Restate?
    ensures var id := if step.PostNew? then next else step.id;
      id in Meaning(docs, step, next) && Signed(Meaning(docs, step, next)[id], ledger) == LegsMove(Kept(step.legs), ledger)
  {
    StoredMoves(Kept(step.legs), ledger);
  }

  lemma {:induction false} SumAppend(j: Journal, v: Voucher, ledger: nat)
    ensures Balance(j + [v], ledger) == Balance(j, ledger) + Counted(v, ledger)
  {
    assert (j + [v])[..|j|] == j;
  }

  lemma {:induction false} BalanceUpdate(j: Journal, id: nat, v: Voucher, ledger: nat)
    requires id < |j|
    ensures Balance(j[id := v], ledger) == Balance(j, ledger) - Counted(j[id], ledger) + Counted(v, ledger)
  {
    SumUpdate(j, id, v, v => Counted(v, ledger));
  }

  lemma {:induction false} FillMoves(j: Journal, id: nat, legs: seq<Leg>, v: Voucher, ledger: nat)
    requires JournalInv(j) && id < |j| && j[id].status == Draft && v.status == Posted && v.legs == j[id].legs + Stored(legs)
    ensures Balance(j[id := v], ledger) == Balance(j, ledger) + LegsMove(legs, ledger)
  {
    BalanceUpdate(j, id, v, ledger);
    FilledDraft(j[id], legs);
    StoredMoves(legs, ledger);
  }

  lemma {:induction false} CancelMoves(j: Journal, id: nat, v: Voucher, mirror: Voucher, ledger: nat)
    requires JournalInv(j) && MirrorPair(j, id, v, mirror)
    ensures Balance(j[id := v] + [mirror], ledger) == Balance(j, ledger) - Signed(Live(j[id].legs), ledger)
  {
    BalanceUpdate(j, id, v, ledger);
    SumAppend(j[id := v], mirror, ledger);
    MirrorOk(j[id], mirror);
    LiveTwice(j[id].legs);
    SignedMirrored(Live(j[id].legs), ledger);
  }

  /** How a step moves a ledger's counted balance. */
  ghost function Moves(j: Journal, step: Step, ledger: nat): int
    requires Acts(j, step)
  {
    match step
    case CreateDraft(_) => 0
    case PostNew(_, legs) => LegsMove(Kept(legs), ledger)
    case PostDraft(_, _, legs) => LegsMove(Kept(legs), ledger)
    case Restate(_, _, legs) => LegsMove(Kept(legs), ledger)
    case Retire(id, _) => -Signed(Live(j[id].legs), ledger)
    case Cancel(id, _, _, _) => -Signed(Live(j[id].legs), ledger)
  }

  lemma {:induction false} PostNewMoves(j: Journal, h: Header, legs: seq<Leg>, ledger: nat)
    requires DoPostNew(j, h, legs).Ok?
    ensures Balance(DoPostNew(j, h, legs).value, ledger) == Balance(j, ledger) + LegsMove(Kept(legs), ledger)
  {
    SumAppend(j, DoPostNew(j, h, legs).value[|j|], ledger);
    LiveOfStored(Kept(legs));
    StoredMoves(Kept(legs), ledger);
  }

  lemma {:induction false} RetireMoves(j: Journal, id: nat, year: nat, ledger: nat)
    requires JournalInv(j) && Has(j, id, year) && j[id].status == Posted
    ensures Balance(DoRetire(j, id, year), ledger) == Balance(j, ledger) - Signed(Live(j[id].legs), ledger)
  {
    BalanceUpdate(j, id, DoRetire(j, id, year)[id], ledger);
  }

  lemma {:induction false} CancelledMoves(j: Journal, id: nat, year: nat, number: nat, kind: nat, ledger: nat)
    requires JournalInv(j) && DoCancel(j, id, year, number, kind).Ok? && DoCancel(j, id, year, number, kind).value != j
    ensures Balance(DoCancel(j, id, year, number, kind).value, ledger) == Balance(j, ledger) - Signed(Live(j[id].legs), ledger)
  {
    var j' := DoCancel(j, id, year, number, kind).value;
    assert VoucherOk(j[id]);
    CancelMoves(j, id, j'[id], j'[|j|], ledger);
  }

  /** A step that has an effect moves every ledger by the legs it hands over, or takes back the legs it retires. */
  lemma {:induction false} StepMoves(j: Journal, step: Step, ledger: nat)
    requires JournalInv(j) && Acts(j, step)
    ensures Apply(j, step).Ok?
    ensures Balance(Apply(j, step).value, ledger) == Balance(j, ledger) + Moves(j, step, ledger)
  {
    ActsIff(j, step);
    var j' := Apply(j, step).value;
    match step {
      case CreateDraft(h) => SumAppend(j, j'[|j|], ledger);
      case PostNew(h, legs) => PostNewMoves(j, h, legs, ledger);
      case PostDraft(id, h, legs) => FillMoves(j, id, Kept(legs), j'[id], ledger);
      case Restate(id, h, legs) => FillMoves(j, id, Kept(legs), j'[id], ledger);
      case Retire(id, year) => RetireMoves(j, id, year, ledger);
      case Cancel(id, year, number, kind) => CancelledMoves(j, id, year, number, kind, ledger);
    }
  }

  // ---------------------------------------------------------------- what a step writes

  /** One past the highest serial of a company's books of a year. */
  ghost predicate NextSerial(j: Journal, company: nat, year: nat, n: nat) {
    && (forall i | 0 <= i < |j| && j[i].company == company && j[i].year == year && j[i].slno.Some? :: j[i].slno.value < n)
    && (n == 1 || exists i :: 0 <= i < |j| && j[i].company == company && j[i].year == year && j[i].slno.Some? && j[i].slno.value + 1 == n)
  }

  lemma {:induction false} HighestIsNext(j: Journal, company: nat, year: nat)
    ensures NextSerial(j, company, year, HighestSerial(j, company, year) + 1)
  {
    if j != [] {
      var n := |j| - 1;
      HighestIsNext(j[..n], company, year);
      assert forall i | 0 <= i < n :: j[..n][i] == j[i];
      var h := HighestSerial(j, company, year);
      if h == HighestSerial(j[..n], company, year) != 0 {
        var i :| 0 <= i < n && j[..n][i].company == company && j[..n][i].year == year && j[..n][i].slno.Some?
                 && j[..n][i].slno.value + 1 == h + 1;
        assert j[i].slno.Some? && j[i].slno.value + 1 == h + 1;
      }
    }
  }

  /** The legs of a document as they are written: after those it had, each leg kept on its own ledger and side. */
  ghost predicate LegsWritten(had: seq<StoredLeg>, legs: seq<Leg>, now: seq<StoredLeg>) {
    && |now| == |had| + |legs| && had <= now
    && forall i | 0 <= i < |legs| ::
         now[|had| + i] == StoredLeg(i + 1, legs[i].ledger, legs[i].side, Round2(Abs(legs[i].amount)), false)
  }

  lemma {:induction false} WrittenLegs(had: seq<StoredLeg>, legs: seq<Leg>)
    ensures LegsWritten(had, legs, had + Stored(legs))
  {
    LiveOfStored(legs);
    forall i | 0 <= i < |legs|
      ensures Stored(legs)[i] == StoredLeg(i + 1, legs[i].ledger, legs[i].side, Round2(Abs(legs[i].amount)), false)
    {
      StoredAt(legs, i);
    }
  }

  /** A new document: POSTED at once, in the type and with the number handed over and the next serial of its books. */
  lemma {:induction false} PostNewWrites(j: Journal, h: Header, legs: seq<Leg>)
    requires Acts(j, PostNew(h, legs))
    ensures Apply(j, PostNew(h, legs)).Ok?
    ensures var j' := Apply(j, PostNew(h, legs)).value;
      && |j'| == |j| + 1 && j'[..|j|] == j
      && var v := j'[|j|];
      && v.company == h.company && v.year == h.year && v.kind == h.kind && v.no == Some(h.number)
      && v.slno.Some? && NextSerial(j, h.company, h.year, v.slno.value)
      && v.status == Posted && v.revision == 0 && v.reversal == None && v.against == None
      && LegsWritten([], Kept(legs), v.legs)
  {
    HighestIsNext(j, h.company, h.year);
    WrittenLegs([], Kept(legs));
    assert [] + Stored(Kept(legs)) == Stored(Kept(legs));
  }

  /** Everything of voucher `id` but what is named, and every other voucher, as before. */
  ghost predicate OthersSame(j: Journal, j': Journal, id: nat) {
    |j| <= |j'| && forall i | 0 <= i < |j| && i != id :: j'[i] == j[i]
  }

  /** A draft: numbered now, in its own company and year and with the links and the revision it had. */
  lemma {:induction false} PostDraftWrites(j: Journal, id: nat, h: Header, legs: seq<Leg>)
    requires Acts(j, PostDraft(id, h, legs))
    ensures Apply(j, PostDraft(id, h, legs)).Ok?
    ensures var j' := Apply(j, PostDraft(id, h, legs)).value;
      && |j'| == |j| && OthersSame(j, j', id)
      && var was, v := j[id], j'[id];
      && v.kind == h.kind && v.no == Some(h.number) && v.slno.Some? && NextSerial(j, h.company, h.year, v.slno.value)
      && v.status == Posted && LegsWritten(was.legs, Kept(legs), v.legs)
      && v.company == was.company && v.year == was.year && v.revision == was.revision
      && v.reversal == was.reversal && v.against == was.against
  {
    PostDraftActs(j, id, h, legs);
    HighestIsNext(j, h.company, h.year);
    WrittenLegs(j[id].legs, Kept(legs));
  }

  /** A retired document: DRAFT again, every leg deleted, and nothing else. */
  lemma {:induction false} RetireWrites(j: Journal, id: nat, year: nat)
    requires Acts(j, Retire(id, year))
    ensures Apply(j, Retire(id, year)).Ok?
    ensures var j' := Apply(j, Retire(id, year)).value;
      && |j'| == |j| && OthersSame(j, j', id)
      && var was, v := j[id], j'[id];
      && v.status == Draft && |v.legs| == |was.legs|
      && (forall i | 0 <= i < |was.legs| :: v.legs[i] == was.legs[i].(deleted := true))
      && v.company == was.company && v.year == was.year && v.kind == was.kind && v.no == was.no && v.slno == was.slno
      && v.revision == was.revision && v.reversal == was.reversal && v.against == was.against
  {
    forall i | 0 <= i < |j[id].legs| ensures Retired(j[id].legs)[i] == j[id].legs[i].(deleted := true) {
      RetiredAt(j[id].legs, i);
    }
  }

  /** A restated document: POSTED again with the new legs, one revision on, in its own type and with its own numbers. */
  lemma {:induction false} RestateWrites(j: Journal, id: nat, h: Header, legs: seq<Leg>)
    requires Acts(j, Restate(id, h, legs))
    ensures Apply(j, Restate(id, h, legs)).Ok?
    ensures var j' := Apply(j, Restate(id, h, legs)).value;
      && |j'| == |j| && OthersSame(j, j', id)
      && var was, v := j[id], j'[id];
      && v.status == Posted && v.revision == was.revision + 1 && LegsWritten(was.legs, Kept(legs), v.legs)
      && v.company == was.company && v.year == was.year && v.kind == was.kind && v.no == was.no && v.slno == was.slno
      && v.reversal == was.reversal && v.against == was.against
  {
    RestateActs(j, id, h, legs);
    WrittenLegs(j[id].legs, Kept(legs));
  }

  /** The legs of a mirror: the live ones of its original, each on the other side. */
  ghost predicate LegsSwapped(was: seq<StoredLeg>, now: seq<StoredLeg>) {
    && |now| == |was|
    && forall i | 0 <= i < |was| ::
         && now[i].ledger == was[i].ledger && now[i].paise == was[i].paise && now[i].rowNo == was[i].rowNo
         && !now[i].deleted && (now[i].side == DR <==> was[i].side == CR)
  }

  lemma {:induction false} SwappedLegs(legs: seq<StoredLeg>)
    ensures LegsSwapped(Live(legs), Mirrored(Live(legs)))
  {
    LiveTwice(legs);
    LiveOfMirrored(Live(legs));
    forall i | 0 <= i < |Live(legs)| ensures !Live(legs)[i].deleted { LiveLeg(legs, i); }
  }

  /** The cancelled original keeps its numbers, its legs and everything but its status and the link to the mirror. */
  ghost predicate CancelledFrom(was: Voucher, v: Voucher, mirrorId: nat) {
    && v.status == Cancelled && v.reversal == Some(mirrorId) && v.legs == was.legs
    && v.company == was.company && v.year == was.year && v.kind == was.kind && v.no == was.no && v.slno == was.slno
    && v.revision == was.revision && v.against == was.against
  }

  /** The mirror: POSTED in the type and with the number drawn for it, never the original's own. */
  ghost predicate MirrorOf(was: Voucher, m: Voucher, id: nat, kind: nat, number: nat) {
    && m.kind == kind && m.no == Some(number) && m.company == was.company && m.year == was.year
    && m.status == Posted && m.revision == 0 && m.reversal == None && m.against == Some(id)
    && LegsSwapped(Live(was.legs), m.legs)
  }

  /** A cancel writes both, each naming the other, the mirror with the next serial of the original's books. */
  lemma {:induction false} CancelWrites(j: Journal, id: nat, year: nat, number: nat, kind: nat)
    requires Acts(j, Cancel(id, year, number, kind))
    ensures Apply(j, Cancel(id, year, number, kind)).Ok?
    ensures var j' := Apply(j, Cancel(id, year, number, kind)).value;
      && |j'| == |j| + 1 && OthersSame(j, j', id)
      && CancelledFrom(j[id], j'[id], |j|) && MirrorOf(j[id], j'[|j|], id, kind, number)
      && j'[|j|].slno.Some? && NextSerial(j, j[id].company, j[id].year, j'[|j|].slno.value)
  {
    CancelActs(j, id, year, number, kind);
    HighestIsNext(j, j[id].company, j[id].year);
    SwappedLegs(j[id].legs);
  }

  // ---------------------------------------------------------------- what a step is refused for

  /** No leg comes to half a paisa. */
  ghost predicate NothingToPost(legs: seq<Leg>) {
    forall l | l in legs :: !(l.amount >= 0.005 - EPSILON || l.amount < EPSILON - 0.005)
  }

  /** Another voucher of the same books, no draft, carries the serial. */
  ghost predicate CarriedElsewhere(j: Journal, id: nat, n: nat)
    requires id < |j|
  {
    exists i | 0 <= i < |j| :: i != id && j[i].company == j[id].company && j[i].year == j[id].year
                              && j[i].status != Draft && j[i].slno == Some(n)
  }

  lemma {:induction false} RefusedMeaning(legs: seq<Leg>)
    ensures Refused(legs) == Some(NoLegs) <==> NothingToPost(legs)
    ensures Refused(legs) == Some(Unbalanced)
       <==> !NothingToPost(legs) && Round2(SideTotal(Kept(legs), DR)) != Round2(SideTotal(Kept(legs), CR))
    ensures Refused(legs).Some? ==> Refused(legs) == Some(NoLegs) || Refused(legs) == Some(Unbalanced)
  {
    forall l ensures l in Kept(legs) <==> l in legs && (l.amount >= 0.005 - EPSILON || l.amount < EPSILON - 0.005) {
      KeptIff(legs, l);
    }
    if Kept(legs) != [] { assert Kept(legs)[0] in Kept(legs); }
  }

  /** The refusals that come after those, in the order in which they are found. */
  ghost predicate FillRefusal(j: Journal, step: Step, e: Error)
    requires step.PostDraft? || step.Restate?
  {
    var id := step.id;
    var there := id < |j| && j[id].year == step.header.year && j[id].status == Draft;
    if !there then e == NotADraft
    else if !StoredBalances(j[id].legs + Stored(Kept(step.legs))) then e == BalancedCheck
    else if step.PostDraft? then
      e == SerialIndex && CarriedElsewhere(j, id, HighestSerial(j, step.header.company, step.header.year) + 1)
    else if j[id].no == None || j[id].slno == None then e == NumberCheck
    else e == SerialIndex && CarriedElsewhere(j, id, j[id].slno.value)
  }

  lemma {:induction false} FillErrors(j: Journal, step: Step)
    requires (step.PostDraft? || step.Restate?) && Refused(step.legs).None?
    ensures forall e :: Apply(j, step) == Err(e) <==> FillRefusal(j, step, e)
  {
  }

  /** A cancel is refused only over the original's numbers; without an original, or a second time, nothing happens. */
  lemma {:induction false} CancelErrors(j: Journal, id: nat, year: nat, number: nat, kind: nat)
    ensures var r := Apply(j, Cancel(id, year, number, kind));
      var standing := id < |j| && j[id].year == year && j[id].reversal == None && j[id].status != Cancelled;
      && (!standing ==> r == Ok(j))
      && (r == Err(NumberCheck) <==> standing && (j[id].no == None || j[id].slno == None))
      && (r == Err(SerialIndex) <==> standing && j[id].no != None && j[id].slno != None && CarriedElsewhere(j, id, j[id].slno.value))
      && (r.Err? ==> r == Err(NumberCheck) || r == Err(SerialIndex))
  {
  }
}
