/**
 A transaction overtaken by others that carry the same request.  What it found earlier is then all that stands
 for the invoice, or all reversed; so its commit replaces the pairs, posts them once more, keeps them, or is
 refused by the once-reversed index (src/common/posting/bill-adjustment.helper.ts).
 */
module SetOffAlong {
  import opened Prelude
  import opened SetOff
  import opened SetOffLog
  import opened SetOffLaws
  import opened SetOffSync
  import opened SetOffRuns
  import opened SetOffSerial
  import opened SetOffSettled
  import SetOffStanding
  import SetOffTheorems

  // ---------------------------------------------------------------- what a transaction can be up to

  ghost predicate Spent(rows: seq<Row>, undo: seq<Op>) {
    forall k | 0 <= k < |undo| :: undo[k].Undo? && !Reversible(rows, undo[k].target)
  }

  ghost predicate AllGone(rows: seq<Row>, at: seq<nat>) { forall k | 0 <= k < |at| :: !Reversible(rows, at[k]) }

  /** Of what was found, all that stands for the invoice now, or nothing, is left. */
  ghost predicate AllOrNone(rows: seq<Row>, billId: nat, both: bool, found: seq<nat>) {
    && InLog(rows, found)
    && (Unreversed(rows, found) == [] || Unreversed(rows, found) == LiveIndices(rows, billId, both, |rows|))
  }

  /** It undoes what stands and posts the request in its place. */
  ghost predicate Replacing(rows: seq<Row>, t: Tx) {
    && t.undo == UndoPhase(rows, t.ctx.bill.id)
    && t.tail == PostPhase(rows + UndoRows(UndoPhase(rows, t.ctx.bill.id)), t.ctx.bill.id, Requested(t.request))
  }

  ghost predicate PostsAt(t: Tx, no: nat) {
    t.tail == PostOps(Requested(t.request), no) + [Settle(Sum(Requested(t.request)))]
  }

  /** What it would undo is reversed already, if anything. */
  ghost predicate Stale(rows: seq<Row>, t: Tx) { Spent(rows, t.undo) && exists no: nat :: PostsAt(t, no) }

  ghost predicate Keeping(t: Tx) {
    t.undo == [] && (t.tail == [] || exists adjusted :: t.tail == [Settle(adjusted)])
  }

  /** What a transaction can be up to on books that carry its request. */
  ghost predicate Along(rows: seq<Row>, ctx: Context, request: Option<seq<Line>>, t: Tx) {
    && t.ctx == ctx && t.request == request
    && match t.stage
       case Looking(found) => AllOrNone(rows, ctx.bill.id, false, found)
       case Finding => true
       case Checking(found) => AllOrNone(rows, ctx.bill.id, true, found)
       case Numbering(at) => at == LiveIndices(rows, ctx.bill.id, true, |rows|) || AllGone(rows, at)
       case Posting => t.undo == UndoPhase(rows, ctx.bill.id) || Spent(rows, t.undo)
       case Settling => Replacing(rows, t) || Stale(rows, t) || Keeping(t)
  }

  /** A transaction that has kept up with the books is along. */
  lemma {:induction false} PlannedAlong(b: Books, t: Tx)
    requires Planned(b, t) && Changes(b.rows, t.ctx, t.request)
    ensures Along(b.rows, t.ctx, t.request, t)
  {
    TwoReads(b.rows, t.ctx.bill.id, false, |b.rows|);
    TwoReads(b.rows, t.ctx.bill.id, true, |b.rows|);
  }

  // ---------------------------------------------------------------- along, while others replace

  lemma {:induction false} FoundSpent(rows: seq<Row>, rows': seq<Row>, billId: nat, both: bool, found: seq<nat>)
    requires Spends(rows, rows', billId) && AllOrNone(rows, billId, both, found)
    ensures AllOrNone(rows', billId, both, found)
  {
    LiveIndicesExact(rows, billId, both, |rows|);
    forall k | 0 <= k < |found| && LiveAt(rows, found[k]) ensures Concerns(rows[found[k]], billId, true) {
      SetOffStanding.UnreversedIn(rows, found, found[k]);
    }
    NothingLeft(rows, rows', billId, found);
  }

  lemma {:induction false} LiveSpent(rows: seq<Row>, rows': seq<Row>, billId: nat)
    requires Spends(rows, rows', billId)
    ensures AllGone(rows', LiveIndices(rows, billId, true, |rows|))
  {
    var at := LiveIndices(rows, billId, true, |rows|);
    LiveIndicesExact(rows, billId, true, |rows|);
    forall k | 0 <= k < |at| ensures !Reversible(rows', at[k]) {
      assert at[k] in at;
      NowReversed(rows, rows', billId, at[k]);
    }
  }

  lemma {:induction false} GoneStays(rows: seq<Row>, rows': seq<Row>, at: seq<nat>)
    requires rows <= rows' && AllGone(rows, at)
    ensures AllGone(rows', at)
  {
    forall k | 0 <= k < |at| ensures !Reversible(rows', at[k]) { StillReversed(rows, rows', at[k]); }
  }

  lemma {:induction false} UndoSpent(rows: seq<Row>, rows': seq<Row>, billId: nat, undo: seq<Op>)
    requires Spends(rows, rows', billId) && (undo == UndoPhase(rows, billId) || Spent(rows, undo))
    ensures Spent(rows', undo)
  {
    LiveSpent(rows, rows', billId);
    forall k | 0 <= k < |undo| ensures undo[k].Undo? && !Reversible(rows', undo[k].target) {
      if Spent(rows, undo) { StillReversed(rows, rows', undo[k].target); }
    }
  }

  lemma {:induction false} SettlingSpent(rows: seq<Row>, rows': seq<Row>, t: Tx)
    requires Spends(rows, rows', t.ctx.bill.id) && (Replacing(rows, t) || Stale(rows, t))
    ensures Stale(rows', t)
  {
    UndoSpent(rows, rows', t.ctx.bill.id, t.undo);
    PostsAnyway(rows, t);
  }

  lemma {:induction false} PostsAnyway(rows: seq<Row>, t: Tx)
    requires Replacing(rows, t) || Stale(rows, t)
    ensures exists no: nat :: PostsAt(t, no)
  {
    if Replacing(rows, t) {
      var no := HighestRowNo(rows + UndoRows(UndoPhase(rows, t.ctx.bill.id)), t.ctx.bill.id) + 1;
      assert PostsAt(t, no);
    }
  }

  /** Another replacement leaves it along, with what it had found spent. */
  lemma {:induction false} AlongStays(rows: seq<Row>, rows': seq<Row>, ctx: Context, request: Option<seq<Line>>, t: Tx)
    requires Spends(rows, rows', ctx.bill.id) && Along(rows, ctx, request, t)
    ensures Along(rows', ctx, request, t)
  {
    match t.stage
    case Looking(found) => FoundSpent(rows, rows', ctx.bill.id, false, found);
    case Finding =>
    case Checking(found) => FoundSpent(rows, rows', ctx.bill.id, true, found);
    case Numbering(at) => if AllGone(rows, at) { GoneStays(rows, rows', at); } else { LiveSpent(rows, rows', ctx.bill.id); }
    case Posting => UndoSpent(rows, rows', ctx.bill.id, t.undo);
    case Settling => if Replacing(rows, t) || Stale(rows, t) { SettlingSpent(rows, rows', t); }
  }

  // ---------------------------------------------------------------- along, while reading

  lemma {:induction false} SameMatches(lines: seq<Line>)
    requires DistinctIds(lines)
    ensures Matches(lines, lines)
  {
    SetOffTheorems.PermutationMatches(lines, lines);
  }

  lemma {:induction false} LookAlong(x: Books, t: Tx)
    requires t.stage.Looking? && StageOk(t) && AllOrNone(x.rows, t.ctx.bill.id, false, t.stage.found)
    requires t.request.Some? && Normalize(t.request.value).Ok?
    requires LiveLines(x.rows, t.ctx.bill.id) == Requested(t.request) && NextRead(x, t).Some?
    ensures Along(x.rows, t.ctx, t.request, NextRead(x, t).value)
  {
    var live, requested := LinesAt(x.rows, Unreversed(x.rows, t.stage.found)), Requested(t.request);
    NormalizeMeaning(t.request.value);
    SameMatches(requested);
    assert live == [] || live == requested;
    assert NextRead(x, t) == Decide(t, live);
  }

  lemma {:induction false} NumberAlong(x: Books, t: Tx)
    requires BooksInv(x) && InvoiceOk(x.balances, t.ctx) && t.stage.Numbering? && NextRead(x, t).Some?
    requires Along(x.rows, t.ctx, t.request, t)
    ensures Along(x.rows, t.ctx, t.request, NextRead(x, t).value)
  {
    UndoMeansLive(x, t.ctx);
    var undo := NextRead(x, t).value.undo;
    if t.stage.at == LiveIndices(x.rows, t.ctx.bill.id, true, |x.rows|) {
      assert undo == UndoPhase(x.rows, t.ctx.bill.id);
    } else {
      assert Spent(x.rows, undo);
    }
  }

  lemma {:induction false} PostingAlong(x: Books, t: Tx)
    requires Running(x, t) && t.stage.Posting? && NextRead(x, t).Some?
    requires Along(x.rows, t.ctx, t.request, t)
    ensures Along(x.rows, t.ctx, t.request, NextRead(x, t).value)
  {
    var t' := NextRead(x, t).value;
    assert t.Ops() == t.undo;
    CommitRuns(x, t);
    RunUndos(x, t.ctx, t.undo);
    assert x.rows + t.rows == x.rows + UndoRows(t.undo);
    assert PostsAt(t', HighestRowNo(x.rows + t.rows, t.ctx.bill.id) + 1);
  }

  lemma {:induction false} NextReadAlong(x: Books, t: Tx)
    requires BooksInv(x) && Running(x, t) && NextRead(x, t).Some? && Along(x.rows, t.ctx, t.request, t)
    requires t.request.Some? && Normalize(t.request.value).Ok?
    requires LiveLines(x.rows, t.ctx.bill.id) == Requested(t.request)
    ensures Along(x.rows, t.ctx, t.request, NextRead(x, t).value)
  {
    match t.stage
    case Looking(_) => LookAlong(x, t);
    case Finding => TwoReads(x.rows, t.ctx.bill.id, true, |x.rows|);
    case Checking(_) =>
    case Numbering(_) => NumberAlong(x, t);
    case Posting => PostingAlong(x, t);
    case Settling =>
  }

  // ---------------------------------------------------------------- along, to the commit

  /** The request replaces something, and if it succeeds then not every credit covers it twice. */
  ghost predicate NotTwice(b: Books, ctx: Context, request: Option<seq<Line>>) {
    && BooksInv(b) && InvoiceOk(b.balances, ctx) && Changes(b.rows, ctx, request)
    && (Sync(b, ctx, request).Ok? ==> Requested(request) == [] || !AllCoverTwice(b, ctx, Requested(request)))
  }

  /** The books carry the request, after one sync of `b` or more. */
  ghost predicate CarriesRequest(b: Books, ctx: Context, request: Option<seq<Line>>, x: Books) {
    Settled(b, ctx, Requested(request), x) && Sync(b, ctx, request).Ok?
  }

  /** The index admits nothing that is reversed already. */
  lemma {:induction false} SpentIsNone(rows: seq<Row>, undo: seq<Op>)
    requires IndexAdmits(rows, undo)
    ensures Spent(rows, undo) ==> undo == []
  {
    if undo != [] {
      assert undo[0].Undo? ==> Reversible(rows, undo[0].target);
    }
  }

  lemma {:induction false} StaleCommits(b: Books, ctx: Context, request: Option<seq<Line>>, x: Books, t: Tx, x': Books)
    requires NotTwice(b, ctx, request) && CarriesRequest(b, ctx, request, x)
    requires t.ctx == ctx && t.request == request && Stale(x.rows, t) && IndexAdmits(x.rows, t.undo)
    requires Run(x, ctx, t.Ops()) == Ok(x')
    ensures Settled(b, ctx, Requested(request), x') && x'.rows == x.rows
  {
    var requested := Requested(request);
    var no: nat :| PostsAt(t, no);
    SpentIsNone(x.rows, t.undo);
    assert t.Ops() == t.tail;
    ChangeOps(b, ctx, request);
    PostsAgainIff(b, ctx, requested, x, no);
    assert requested == [];
    assert PostOps(requested, no) == [];
    assert t.tail == [Settle(Sum(requested))];
    FigureSettles(b, ctx, requested, x, t.tail, x');
  }

  /** Whatever it is up to, its commit leaves the books carrying the request. */
  lemma {:induction false} AlongCommits(b: Books, ctx: Context, request: Option<seq<Line>>, x: Books, t: Tx, x': Books)
    requires NotTwice(b, ctx, request) && CarriesRequest(b, ctx, request, x)
    requires Along(x.rows, ctx, request, t) && t.stage.Settling? && IndexAdmits(x.rows, t.undo)
    requires Run(x, ctx, t.Ops()) == Ok(x')
    ensures CarriesRequest(b, ctx, request, x') && (x'.rows == x.rows || Spends(x.rows, x'.rows, ctx.bill.id))
  {
    var requested := Requested(request);
    ChangeOps(b, ctx, request);
    if Replacing(x.rows, t) {
      assert t.Ops() == ReplaceOps(x.rows, ctx, requested);
      AgainSettles(b, ctx, requested, x, x');
      ReplaceSpends(x, ctx, requested, x');
    } else if Stale(x.rows, t) {
      StaleCommits(b, ctx, request, x, t, x');
    } else {
      assert t.Ops() == t.tail;
      FigureSettles(b, ctx, requested, x, t.tail, x');
    }
  }

  lemma {:induction false} FirstCommits(b: Books, ctx: Context, request: Option<seq<Line>>, t: Tx, x: Books)
    requires NotTwice(b, ctx, request) && t.ctx == ctx && t.request == request
    requires Planned(b, t) && t.stage.Settling? && Run(b, ctx, t.Ops()) == Ok(x)
    ensures CarriesRequest(b, ctx, request, x) && Spends(b.rows, x.rows, ctx.bill.id)
  {
    PlannedIsPlan(b, t);
    ChangeOps(b, ctx, request);
    FirstSettles(b, ctx, Requested(request), x);
    ReplaceSpends(b, ctx, Requested(request), x);
  }
}
