/**
 The theorems about syncBillAdjustments as a whole, for every request and every state the books
 can be in.
 */
module SetOffSync {
  import opened Prelude
  import opened SetOff
  import opened SetOffLog
  import opened SetOffLaws

  // ---------------------------------------------------------------- shape of a replacement

  /** After the undo rows the log got the requested pairs, and the invoice's figure was settled. */
  ghost predicate Posting(b: Books, ctx: Context, requested: seq<Line>, undone: seq<Row>, posted: seq<Row>, b': Books) {
    && PostedRows(b.balances, ctx, requested, HighestRowNo(b.rows + undone, ctx.bill.id) + 1, posted)
    && b'.rows == b.rows + undone + posted
    && SameButAlloc(b.balances, b'.balances)
    && (forall k | 0 <= k < |requested| :: OnSide(b.balances, requested[k].Credit(), CR))
    && ctx.bill in b'.balances
    && b'.balances[ctx.bill].alloc == Min(ctx.billAmount, ctx.paid + Sum(requested))
  }

  ghost predicate Replacement(b: Books, ctx: Context, requested: seq<Line>, at: seq<nat>, undone: seq<Row>,
                              posted: seq<Row>, b': Books)
  {
    Undoing(b, ctx, at, undone) && Posting(b, ctx, requested, undone, posted, b')
  }

  lemma {:induction false} SameTrans(a: Balances, b: Balances, c: Balances)
    requires SameButAlloc(a, b) && SameButAlloc(b, c)
    ensures SameButAlloc(a, c)
  {
    forall k | k in a ensures c[k].(alloc := a[k].alloc) == a[k] {
      assert b[k].(alloc := a[k].alloc) == a[k] && c[k].(alloc := b[k].alloc) == b[k];
    }
  }

  lemma {:induction false} PostPart(b: Books, mid: Books, ctx: Context, requested: seq<Line>, undone: seq<Row>, no: nat, b': Books)
    returns (posted: seq<Row>)
    requires mid.rows == b.rows + undone && SameButAlloc(b.balances, mid.balances)
    requires no == HighestRowNo(b.rows + undone, ctx.bill.id) + 1
    requires Run(mid, ctx, PostOps(requested, no) + [Settle(Sum(requested))]) == Ok(b')
    ensures Posting(b, ctx, requested, undone, posted, b')
  {
    posted := PostThenSettle(b, mid, ctx, requested, no, PostOps(requested, no), b');
  }

  /** The pairs posted, on which sides, and the figure the invoice is settled at. */
  lemma {:induction false} PostThenSettle(b: Books, mid: Books, ctx: Context, requested: seq<Line>, no: nat, ops: seq<Op>, b': Books)
    returns (posted: seq<Row>)
    requires SameButAlloc(b.balances, mid.balances) && ops == PostOps(requested, no)
    requires Run(mid, ctx, ops + [Settle(Sum(requested))]) == Ok(b')
    ensures PostedRows(b.balances, ctx, requested, no, posted) && b'.rows == mid.rows + posted
    ensures SameButAlloc(b.balances, b'.balances) && ctx.bill in b'.balances
    ensures forall k | 0 <= k < |requested| :: OnSide(b.balances, requested[k].Credit(), CR)
    ensures b'.balances[ctx.bill].alloc == Min(ctx.billAmount, ctx.paid + Sum(requested))
  {
    var total := Sum(requested);
    var after := SettledPart(mid, ctx, ops, total, b');
    posted := PostedPart(b, mid, ctx, requested, no, ops, after);
    SameTrans(b.balances, mid.balances, b'.balances);
  }

  lemma {:induction false} SettledPart(b: Books, ctx: Context, ops: seq<Op>, adjusted: int, b': Books) returns (after: Books)
    requires Run(b, ctx, ops + [Settle(adjusted)]) == Ok(b')
    ensures Run(b, ctx, ops) == Ok(after) && b'.rows == after.rows
    ensures SameButAlloc(b.balances, b'.balances)
    ensures ctx.bill in b'.balances
    ensures b'.balances[ctx.bill].alloc == Min(ctx.billAmount, ctx.paid + adjusted)
  {
    assert (ops + [Settle(adjusted)])[..|ops|] == ops;
    after := Run(b, ctx, ops).value;
    RunFrame(b, ctx, ops);
    SettledFrom(after, ctx, adjusted, b');
    SameTrans(b.balances, after.balances, b'.balances);
  }

  lemma {:induction false} SettledFrom(after: Books, ctx: Context, adjusted: int, b': Books)
    requires Do(after, ctx, Settle(adjusted)) == Ok(b')
    ensures b'.rows == after.rows && SameButAlloc(after.balances, b'.balances) && ctx.bill in b'.balances
    ensures b'.balances[ctx.bill].alloc == Min(ctx.billAmount, ctx.paid + adjusted)
  {
    assert after.rows + [] == after.rows;
  }

  lemma {:induction false} PostedPart(b: Books, mid: Books, ctx: Context, requested: seq<Line>, no: nat, ops: seq<Op>, after: Books)
    returns (posted: seq<Row>)
    requires SameButAlloc(b.balances, mid.balances) && ops == PostOps(requested, no) && Run(mid, ctx, ops) == Ok(after)
    ensures after.rows == mid.rows + posted
    ensures PostedRows(b.balances, ctx, requested, no, posted)
    ensures forall k | 0 <= k < |requested| :: OnSide(b.balances, requested[k].Credit(), CR)
  {
    posted := RunPosts(mid, ctx, requested, no, ops, after);
    PostedSame(mid.balances, b.balances, ctx, requested, no, posted);
    PostedCredits(mid, ctx, requested, no, ops);
    SameCredits(b.balances, mid.balances, requested);
  }

  lemma {:induction false} SameCredits(a: Balances, b: Balances, lines: seq<Line>)
    requires SameButAlloc(a, b) && forall k | 0 <= k < |lines| :: OnSide(b, lines[k].Credit(), CR)
    ensures forall k | 0 <= k < |lines| :: OnSide(a, lines[k].Credit(), CR)
  {
    forall k | 0 <= k < |lines| ensures OnSide(a, lines[k].Credit(), CR) {
      assert OnSide(b, lines[k].Credit(), CR);
    }
  }

  lemma {:induction false} PostedSame(a: Balances, b: Balances, ctx: Context, lines: seq<Line>, no: nat, posted: seq<Row>)
    requires SameButAlloc(b, a) && PostedRows(a, ctx, lines, no, posted)
    ensures PostedRows(b, ctx, lines, no, posted)
  {
    if lines != [] {
      var n := |lines| - 1;
      PostedSame(a, b, ctx, lines[..n], no, posted[..2 * n]);
    }
  }

  lemma {:induction false} ReplaceShape(b: Books, ctx: Context, requested: seq<Line>, b': Books)
    returns (at: seq<nat>, undone: seq<Row>, posted: seq<Row>)
    requires LiveIndices(b.rows, ctx.bill.id, true, |b.rows|) == [] || LiveLines(b.rows, ctx.bill.id) != []
    requires Run(b, ctx, ReplaceOps(b.rows, ctx, requested)) == Ok(b')
    ensures Replacement(b, ctx, requested, at, undone, posted, b')
  {
    var undo := UndoPhase(b.rows, ctx.bill.id);
    at, undone := UndoFacts(b, ctx, undo);
    var no := HighestRowNo(b.rows + undone, ctx.bill.id) + 1;
    var rest := PostOps(requested, no) + [Settle(Sum(requested))];
    ReplaceIs(b.rows, ctx, requested, undo, no);
    var mid := UndoPart(b, ctx, undo, rest, b');
    posted := PostPart(b, mid, ctx, requested, undone, no, b');
  }

  lemma {:induction false} ReplaceIs(rows: seq<Row>, ctx: Context, requested: seq<Line>, undo: seq<Op>, no: nat)
    requires undo == UndoPhase(rows, ctx.bill.id) && no == HighestRowNo(rows + UndoRows(undo), ctx.bill.id) + 1
    ensures ReplaceOps(rows, ctx, requested) == undo + (PostOps(requested, no) + [Settle(Sum(requested))])
  {
  }

  lemma {:induction false} UndoPart(b: Books, ctx: Context, undo: seq<Op>, rest: seq<Op>, b': Books) returns (mid: Books)
    requires forall op <- undo :: op.Undo?
    requires Run(b, ctx, undo + rest) == Ok(b')
    ensures mid.rows == b.rows + UndoRows(undo) && SameButAlloc(b.balances, mid.balances)
    ensures Run(mid, ctx, rest) == Ok(b')
  {
    RunConcat(b, ctx, undo, rest);
    mid := Run(b, ctx, undo).value;
    RunUndos(b, ctx, undo);
    RunFrame(b, ctx, undo);
  }

  lemma {:induction false} KeysInvSame(b: Books, balances: Balances)
    requires KeysInv(b) && SameButAlloc(b.balances, balances)
    ensures KeysInv(b.(balances := balances))
  {
    forall i | 0 <= i < |b.rows| ensures RowSides(balances, b.rows[i]) {
      assert RowSides(b.balances, b.rows[i]);
    }
  }

  lemma {:induction false} ReplaceKeepsLog(b: Books, ctx: Context, requested: seq<Line>, at: seq<nat>,
                                           undone: seq<Row>, posted: seq<Row>, b': Books)
    requires LogInv(b.rows) && KeysInv(b) && InvoiceOk(b.balances, ctx)
    requires DistinctIds(requested) && forall k | 0 <= k < |requested| :: 0 < requested[k].amount
    requires Replacement(b, ctx, requested, at, undone, posted, b')
    ensures LogInv(b'.rows) && KeysInv(b')
    ensures LiveLines(b'.rows, ctx.bill.id) == requested
  {
    var mid := b.(rows := b.rows + undone);
    UndoKeepsLog(b, ctx, at, undone);
    UndoLeaves(b, ctx, at, undone);
    PostsOnto(mid, ctx, requested, posted);
    KeysInvSame(b.(rows := b'.rows), b'.balances);
  }

  lemma {:induction false} PostsOnto(mid: Books, ctx: Context, requested: seq<Line>, posted: seq<Row>)
    requires LogInv(mid.rows) && KeysInv(mid) && InvoiceOk(mid.balances, ctx)
    requires forall i | 0 <= i < |mid.rows| && LiveAt(mid.rows, i) :: !Concerns(mid.rows[i], ctx.bill.id, true)
    requires DistinctIds(requested) && forall k | 0 <= k < |requested| :: 0 < requested[k].amount
    requires forall k | 0 <= k < |requested| :: OnSide(mid.balances, requested[k].Credit(), CR)
    requires PostedRows(mid.balances, ctx, requested, HighestRowNo(mid.rows, ctx.bill.id) + 1, posted)
    ensures LogInv(mid.rows + posted) && KeysInv(mid.(rows := mid.rows + posted))
    ensures LiveLines(mid.rows + posted, ctx.bill.id) == requested
  {
    PostKeepsLog(mid, ctx, requested, posted);
    PostLiveLines(mid, ctx, requested, HighestRowNo(mid.rows, ctx.bill.id) + 1, posted);
  }

  ghost predicate UntouchedAt(before: seq<Row>, after: seq<Row>, billId: nat, i: nat)
    requires i < |before| <= |after|
  {
    !Concerns(before[i], billId, true) ==> (LiveAt(after, i) <==> LiveAt(before, i))
  }

  /** Rows of other invoices stand or not exactly as before, and every new row is this invoice's. */
  ghost predicate OthersUntouched(before: seq<Row>, after: seq<Row>, billId: nat) {
    && before <= after
    && (forall i | 0 <= i < |before| :: UntouchedAt(before, after, billId, i))
    && (forall i | |before| <= i < |after| :: Concerns(after[i], billId, true))
  }

  lemma {:induction false} OthersTrans(a: seq<Row>, b: seq<Row>, c: seq<Row>, billId: nat)
    requires OthersUntouched(a, b, billId) && OthersUntouched(b, c, billId)
    ensures OthersUntouched(a, c, billId)
  {
    forall i | 0 <= i < |a| ensures UntouchedAt(a, c, billId, i) {
      assert UntouchedAt(a, b, billId, i) && UntouchedAt(b, c, billId, i) && a[i] == b[i];
    }
    assert forall i | 0 <= i < |b| :: b[i] == c[i];
  }

  lemma {:induction false} ReplaceOthers(b: Books, ctx: Context, requested: seq<Line>, at: seq<nat>,
                                         undone: seq<Row>, posted: seq<Row>, b': Books)
    requires LogInv(b.rows) && KeysInv(b) && InvoiceOk(b.balances, ctx)
    requires Replacement(b, ctx, requested, at, undone, posted, b')
    ensures OthersUntouched(b.rows, b'.rows, ctx.bill.id)
  {
    var mid := b.(rows := b.rows + undone);
    assert OthersUntouched(b.rows, mid.rows, ctx.bill.id) by { UndoLeaves(b, ctx, at, undone); }
    assert OthersUntouched(mid.rows, b'.rows, ctx.bill.id) by {
      UndoKeepsLog(b, ctx, at, undone);
      PostReversals(mid, ctx, requested, HighestRowNo(mid.rows, ctx.bill.id) + 1, posted);
    }
    OthersTrans(b.rows, mid.rows, b'.rows, ctx.bill.id);
  }

  // ---------------------------------------------------------------- allocations

  lemma {:induction false} RunBounds(b: Books, ctx: Context, ops: seq<Op>, c: Key)
    requires Run(b, ctx, ops).Ok? && c in b.balances && 0 <= b.balances[c].alloc <= b.balances[c].face
    ensures var b' := Run(b, ctx, ops).value;
      c in b'.balances && 0 <= b'.balances[c].alloc <= b'.balances[c].face
  {
    if ops != [] { RunBounds(b, ctx, ops[..|ops| - 1], c); }
  }

  lemma {:induction false} RunBacked(b: Books, ctx: Context, ops: seq<Op>)
    requires IdsUnique(b.balances) && Backed(b) && InvoiceOk(b.balances, ctx) && Run(b, ctx, ops).Ok?
    ensures Backed(Run(b, ctx, ops).value)
  {
    var b' := Run(b, ctx, ops).value;
    RunFrame(b, ctx, ops);
    forall c ensures BackedAt(b', c) {
      if OnSide(b'.balances, c, CR) {
        assert OnSide(b.balances, c, CR) && BackedAt(b, c) && IdIsKey(c, ctx.bill);
        RunBounds(b, ctx, ops, c);
        RunConserves(b, ctx, ops, c);
      }
    }
  }

  // ---------------------------------------------------------------- the theorems

  ghost function Requested(request: Option<seq<Line>>): seq<Line> {
    if request.Some? && Normalize(request.value).Ok? then Normalize(request.value).value else []
  }

  /** The request was sent, was accepted, and differs from what stands. */
  ghost predicate Changes(rows: seq<Row>, ctx: Context, request: Option<seq<Line>>) {
    && request.Some? && Normalize(request.value).Ok?
    && !Matches(LiveLines(rows, ctx.bill.id), Requested(request))
  }

  /** When nothing changes no row is written; the invoice's figure is re-settled if a pair stands. */
  lemma {:induction false} KeepBooks(b: Books, ctx: Context, request: Option<seq<Line>>, b': Books)
    requires Sync(b, ctx, request) == Ok(b') && !Changes(b.rows, ctx, request)
    ensures var live := LiveLines(b.rows, ctx.bill.id);
      && b'.rows == b.rows
      && if live == [] then b' == b
         else
           && ctx.bill in b.balances
           && b'.balances == b.balances[ctx.bill := b.balances[ctx.bill].(alloc := Min(ctx.billAmount, ctx.paid + Sum(live)))]
  {
    var live := LiveLines(b.rows, ctx.bill.id);
    if live != [] {
      var ops := [Settle(Sum(live))];
      assert Plan(b.rows, ctx, request) == Ok(ops);
      assert ops[..0] == [];
      assert Run(b, ctx, ops) == Do(b, ctx, ops[0]);
    }
  }

  lemma {:induction false} ChangeOps(b: Books, ctx: Context, request: Option<seq<Line>>)
    requires Changes(b.rows, ctx, request)
    ensures Sync(b, ctx, request) == Run(b, ctx, ReplaceOps(b.rows, ctx, Requested(request)))
    ensures DistinctIds(Requested(request))
    ensures forall k | 0 <= k < |Requested(request)| :: 0 < Requested(request)[k].amount
  {
    NormalizeMeaning(request.value);
  }

  /** What a sync that changes something leaves behind. */
  ghost predicate Replaced(b: Books, ctx: Context, requested: seq<Line>, b': Books) {
    && LogInv(b'.rows) && KeysInv(b') && OthersUntouched(b.rows, b'.rows, ctx.bill.id)
    && LiveLines(b'.rows, ctx.bill.id) == requested
    && ctx.bill in b'.balances
    && b'.balances[ctx.bill].alloc == Min(ctx.billAmount, ctx.paid + Sum(requested))
  }

  lemma {:induction false} ChangeReplaces(b: Books, ctx: Context, request: Option<seq<Line>>, b': Books)
    requires LogInv(b.rows) && KeysInv(b) && InvoiceOk(b.balances, ctx)
    requires Sync(b, ctx, request) == Ok(b') && Changes(b.rows, ctx, request)
    ensures Replaced(b, ctx, Requested(request), b')
  {
    UndoMeansLive(b, ctx);
    var at, undone, posted := ChangeShape(b, ctx, request, b');
    ReplaceOutcome(b, ctx, Requested(request), at, undone, posted, b');
  }

  lemma {:induction false} ChangeShape(b: Books, ctx: Context, request: Option<seq<Line>>, b': Books)
    returns (at: seq<nat>, undone: seq<Row>, posted: seq<Row>)
    requires LiveIndices(b.rows, ctx.bill.id, true, |b.rows|) == [] || LiveLines(b.rows, ctx.bill.id) != []
    requires Sync(b, ctx, request) == Ok(b') && Changes(b.rows, ctx, request)
    ensures DistinctIds(Requested(request))
    ensures forall k | 0 <= k < |Requested(request)| :: 0 < Requested(request)[k].amount
    ensures Replacement(b, ctx, Requested(request), at, undone, posted, b')
  {
    ChangeOps(b, ctx, request);
    at, undone, posted := ReplaceShape(b, ctx, Requested(request), b');
  }

  lemma {:induction false} ReplaceOutcome(b: Books, ctx: Context, requested: seq<Line>, at: seq<nat>,
                                          undone: seq<Row>, posted: seq<Row>, b': Books)
    requires LogInv(b.rows) && KeysInv(b) && InvoiceOk(b.balances, ctx)
    requires DistinctIds(requested) && forall k | 0 <= k < |requested| :: 0 < requested[k].amount
    requires Replacement(b, ctx, requested, at, undone, posted, b')
    ensures Replaced(b, ctx, requested, b')
  {
    ReplaceKeepsLog(b, ctx, requested, at, undone, posted, b');
    ReplaceOthers(b, ctx, requested, at, undone, posted, b');
  }

  lemma {:induction false} SyncFrame(b: Books, ctx: Context, request: Option<seq<Line>>, b': Books)
    requires KeysInv(b) && Backed(b) && InvoiceOk(b.balances, ctx)
    requires Sync(b, ctx, request) == Ok(b')
    ensures SameButAlloc(b.balances, b'.balances) && Backed(b')
  {
    var ops := Plan(b.rows, ctx, request).value;
    RunFrame(b, ctx, ops);
    RunBacked(b, ctx, ops);
  }

  /**
   Every successful sync keeps the books in order: the log invariant, the sides of every row, and
   every credit allocated within its face and for at least what its rows account for.  Rows are only
   appended, and other invoices' pairs are untouched.
   */
  lemma {:induction false} SyncKeepsBooks(b: Books, ctx: Context, request: Option<seq<Line>>, b': Books)
    requires BooksInv(b) && InvoiceOk(b.balances, ctx)
    requires Sync(b, ctx, request) == Ok(b')
    ensures BooksInv(b') && InvoiceOk(b'.balances, ctx)
    ensures OthersUntouched(b.rows, b'.rows, ctx.bill.id)
    ensures SameButAlloc(b.balances, b'.balances)
  {
    SyncFrame(b, ctx, request, b');
    if Changes(b.rows, ctx, request) {
      ChangeReplaces(b, ctx, request, b');
    } else {
      KeepBooks(b, ctx, request, b');
      KeysInvSame(b, b'.balances);
    }
  }
}
