/**
 The posting service as it runs: the headers and their legs are a field the methods rewrite.  Beside it the
 service keeps, for the proof alone, the plain map of standing documents that the books refine.
 */
module VoucherBook {
  import opened Prelude
  import opened Rounding
  import opened Vouchers
  import opened VoucherBooks

  /** What a step makes of the standing documents. */
  ghost function Moved(j: Journal, docs: Documents, step: Step): Documents {
    if Concerned(j, step) then Meaning(docs, step, |j|) else docs
  }

  /** The step a post amounts to: into a retired draft, a fresh draft or a new header. */
  function PostStep(header: Header, legs: seq<Leg>, restate: Option<nat>, draft: Option<nat>): Step {
    if restate.Some? then Restate(restate.value, header, legs)
    else if draft.Some? then PostDraft(draft.value, header, legs)
    else PostNew(header, legs)
  }

  class Service {
    var vouchers: Journal
    ghost var documents: Documents

    ghost predicate Valid()
      reads this
    {
      JournalInv(vouchers) && documents == StandingIn(vouchers)
    }

    constructor ()
      ensures Valid() && vouchers == [] && documents == map[]
    {
      vouchers, documents := [], map[];
    }

    /** The documents follow a step that was carried out. */
    ghost method Follow(before: Journal, step: Step)
      requires JournalInv(before) && documents == StandingIn(before)
      requires vouchers == Through(before, step)
      modifies this`documents
      ensures Valid() && documents == Moved(before, old(documents), step)
    {
      if Apply(before, step).Ok? {
        StepKeepsInv(before, step);
        StepRefines(before, step);
      }
      documents := StandingIn(vouchers);
    }

    /** assertBalanced, over the two totals sumSides returns. */
    method AssertBalanced(legs: seq<Leg>) returns (ok: bool)
      ensures ok == Balanced(legs)
    {
      var dr, cr := SumSides(legs);
      ok := dr == cr;
    }

    /**
     postLegs: into the draft an amend retired, into a fresh draft, or into a new header.  Returns the
     voucher's id; a refusal rolls the caller's transaction back.
     */
    method PostLegs(header: Header, legs: seq<Leg>, restate: Option<nat>, draft: Option<nat>)
      returns (r: Result<nat, Error>)
      requires Valid()
      modifies this
      ensures Valid() && documents == Moved(old(vouchers), old(documents), PostStep(header, legs, restate, draft))
      ensures restate.Some? ==> vouchers == Through(old(vouchers), Restate(restate.value, header, legs))
      ensures restate.None? && draft.Some? ==> vouchers == Through(old(vouchers), PostDraft(draft.value, header, legs))
      ensures restate.None? && draft.None? ==> vouchers == Through(old(vouchers), PostNew(header, legs))
      ensures
        match Apply(old(vouchers), PostStep(header, legs, restate, draft))
        case Ok(after) =>
          && vouchers == after
          && r == Ok(if restate.Some? then restate.value else if draft.Some? then draft.value else |old(vouchers)|)
        case Err(e) => r == Err(e) && vouchers == old(vouchers)
    {
      ghost var before, step := vouchers, PostStep(header, legs, restate, draft);
      var kept := Kept(legs);
      var balanced := AssertBalanced(kept);
      if kept == [] {
        r := Err(NoLegs);
      } else if !balanced {
        r := Err(Unbalanced);
      } else if restate.Some? {
        r := RestateLegs(restate.value, header, legs);
      } else if draft.Some? {
        r := PostIntoDraft(draft.value, header, legs);
      } else {
        r := PostNewHeader(header, legs);
      }
      Follow(before, step);
    }

    /** A header of its own: the serial drawn, the legs numbered, POSTED at once. */
    method PostNewHeader(header: Header, legs: seq<Leg>) returns (r: Result<nat, Error>)
      modifies this`vouchers
      ensures match DoPostNew(old(vouchers), header, legs)
              case Ok(after) => r == Ok(|old(vouchers)|) && vouchers == after
              case Err(e) => r == Err(e) && vouchers == old(vouchers)
    {
      var slno := HighestSerial(vouchers, header.company, header.year) + 1;
      var stored := Stored(Kept(legs));
      if !StoredBalances(stored) { return Err(BalancedCheck); }
      vouchers := vouchers + [Voucher(header.company, header.year, header.kind, Some(header.number), Some(slno),
                                      Posted, 0, None, None, stored)];
      return Ok(|vouchers| - 1);
    }

    /** restateLegs: the new legs into the header an amend left in DRAFT; its numbers stand. */
    method RestateLegs(id: nat, header: Header, legs: seq<Leg>) returns (r: Result<nat, Error>)
      modifies this`vouchers
      ensures match DoRestate(old(vouchers), id, header, legs)
              case Ok(after) => r == Ok(id) && vouchers == after
              case Err(e) => r == Err(e) && vouchers == old(vouchers)
    {
      if id >= |vouchers| || vouchers[id].year != header.year || vouchers[id].status != Draft { return Err(NotADraft); }
      var saved := vouchers;
      var v := vouchers[id].(revision := vouchers[id].revision + 1);
      vouchers := vouchers[id := v.(legs := v.legs + Stored(Kept(legs)))];
      if !StoredBalances(vouchers[id].legs) {
        vouchers := saved;
        return Err(BalancedCheck);
      }
      if v.no.None? || v.slno.None? {
        vouchers := saved;
        return Err(NumberCheck);
      }
      if SerialTaken(saved, id, v.slno.value) {
        vouchers := saved;
        return Err(SerialIndex);
      }
      vouchers := vouchers[id := vouchers[id].(status := Posted)];
      return Ok(id);
    }

    /** postIntoDraft: numbered now, legs first, status last. */
    method PostIntoDraft(id: nat, header: Header, legs: seq<Leg>) returns (r: Result<nat, Error>)
      modifies this`vouchers
      ensures match DoPostDraft(old(vouchers), id, header, legs)
              case Ok(after) => r == Ok(id) && vouchers == after
              case Err(e) => r == Err(e) && vouchers == old(vouchers)
    {
      if id >= |vouchers| || vouchers[id].year != header.year || vouchers[id].status != Draft { return Err(NotADraft); }
      var saved := vouchers;
      var slno := HighestSerial(vouchers, header.company, header.year) + 1;
      vouchers := vouchers[id := vouchers[id].(legs := vouchers[id].legs + Stored(Kept(legs)))];
      if !StoredBalances(vouchers[id].legs) {
        vouchers := saved;
        return Err(BalancedCheck);
      }
      if SerialTaken(saved, id, slno) {
        vouchers := saved;
        return Err(SerialIndex);
      }
      vouchers := vouchers[id := vouchers[id].(kind := header.kind, no := Some(header.number), slno := Some(slno),
                                               status := Posted)];
      return Ok(id);
    }

    /** retireForRestate: back to DRAFT, legs soft-deleted; false when there is no POSTED voucher. */
    method RetireForRestate(id: nat, year: nat) returns (moved: bool)
      requires Valid()
      modifies this
      ensures Valid() && documents == if moved then old(documents) - {id} else old(documents)
      ensures vouchers == DoRetire(old(vouchers), id, year)
      ensures moved <==> Has(old(vouchers), id, year) && old(vouchers)[id].status == Posted
    {
      ghost var before := vouchers;
      moved := id < |vouchers| && vouchers[id].year == year && vouchers[id].status == Posted;
      if moved {
        vouchers := vouchers[id := vouchers[id].(status := Draft)];
        vouchers := vouchers[id := vouchers[id].(legs := Retired(vouchers[id].legs))];
      }
      Follow(before, Retire(id, year));
    }

    /** reverseLegs: the original cancelled, the mirror written with every leg swapped, the two linked. */
    method ReverseLegs(id: nat, year: nat, number: nat, kind: nat) returns (r: Result<Option<nat>, Error>)
      requires Valid()
      modifies this
      ensures Valid() && documents == if r.Ok? && r.value.Some? then old(documents) - {id} else old(documents)
      ensures match DoCancel(old(vouchers), id, year, number, kind)
              case Ok(after) =>
                && vouchers == after
                && r == Ok(if |after| == |old(vouchers)| then None else Some(|old(vouchers)|))
              case Err(e) => r == Err(e) && vouchers == old(vouchers)
    {
      ghost var before := vouchers;
      r := WriteMirror(id, year, number, kind);
      Follow(before, Cancel(id, year, number, kind));
    }

    method WriteMirror(id: nat, year: nat, number: nat, kind: nat) returns (r: Result<Option<nat>, Error>)
      modifies this`vouchers
      ensures match DoCancel(old(vouchers), id, year, number, kind)
              case Ok(after) =>
                && vouchers == after
                && r == Ok(if |after| == |old(vouchers)| then None else Some(|old(vouchers)|))
              case Err(e) => r == Err(e) && vouchers == old(vouchers)
    {
      if id >= |vouchers| || vouchers[id].year != year { return Ok(None); }
      var original := vouchers[id];
      if original.reversal.Some? || original.status == Cancelled { return Ok(None); }
      if original.no.None? || original.slno.None? { return Err(NumberCheck); }
      if SerialTaken(vouchers, id, original.slno.value) { return Err(SerialIndex); }
      var slno := HighestSerial(vouchers, original.company, original.year) + 1;
      vouchers := vouchers[id := original.(status := Cancelled)];
      vouchers := vouchers + [Voucher(original.company, original.year, kind, Some(number), Some(slno), Posted, 0,
                                      None, Some(id), Mirrored(Live(original.legs)))];
      vouchers := vouchers[id := vouchers[id].(reversal := Some(|vouchers| - 1))];
      return Ok(Some(|vouchers| - 1));
    }
  }
}
