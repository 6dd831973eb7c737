/**
 Exactly when a sync succeeds (src/common/posting/bill-adjustment.helper.ts): what the checks of lockCredit,
 deriveRouting and ensureCreditCovers and the range of the allocation figure come to, once the invoice's own
 earlier set-offs have been given back.
 */
module SetOffSuccess {
  import opened Prelude
  import opened SetOff
  import opened SetOffLog
  import opened SetOffLaws
  import opened SetOffSync
  import opened SetOffTheorems

  // ---------------------------------------------------------------- what the invoice already takes

  ghost function TakenOf(lines: seq<Line>, c: Key): int {
    if lines == [] then 0
    else TakenOf(lines[..|lines| - 1], c) + if lines[|lines| - 1].Credit() == c then lines[|lines| - 1].amount else 0
  }

  /** What stands against a credit for this invoice. */
  ghost function Taken(b: Books, ctx: Context, c: Key): int { TakenOf(LiveLines(b.rows, ctx.bill.id), c) }

  /** The same, added up over the invoice's rows and over the credit's rows. */
  ghost function InvoiceSide(rows: seq<Row>, billId: nat, c: Key, n: nat): int
    requires n <= |rows|
  {
    if n == 0 then 0
    else
      InvoiceSide(rows, billId, c, n - 1)
      + if Concerns(rows[n - 1], billId, false) && LiveAt(rows, n - 1) && rows[n - 1].against == c then rows[n - 1].amount else 0
  }

  ghost function CreditSide(rows: seq<Row>, billId: nat, c: Key, n: nat): int
    requires n <= |rows|
  {
    if n == 0 then 0
    else
      CreditSide(rows, billId, c, n - 1)
      + if Concerns(rows[n - 1], billId, true) && LiveAt(rows, n - 1) && rows[n - 1].bill == c then rows[n - 1].amount else 0
  }

  lemma {:induction false} TakenSnoc(lines: seq<Line>, l: Line, c: Key)
    ensures TakenOf(lines + [l], c) == TakenOf(lines, c) + if l.Credit() == c then l.amount else 0
  {
    assert (lines + [l])[..|lines|] == lines;
  }

  lemma {:induction false} LinesAdd(rows: seq<Row>, billId: nat, c: Key, n: nat)
    requires n <= |rows|
    ensures TakenOf(LinesAt(rows, LiveIndices(rows, billId, false, n)), c) == InvoiceSide(rows, billId, c, n)
  {
    if n > 0 {
      LinesAdd(rows, billId, c, n - 1);
      var before, at := LiveIndices(rows, billId, false, n - 1), LiveIndices(rows, billId, false, n);
      if at != before {
        assert LinesAt(rows, at) == LinesAt(rows, before) + [AsLine(rows[n - 1])];
        TakenSnoc(LinesAt(rows, before), AsLine(rows[n - 1]), c);
      }
    }
  }

  /** A standing row on the credit's side and the invoice row just before it are twins, so they add alike. */
  lemma {:induction false} TwinsAdd(b: Books, ctx: Context, c: Key, i: nat)
    requires LogInv(b.rows) && KeysInv(b) && InvoiceOk(b.balances, ctx) && OnSide(b.balances, c, CR) && i + 1 < |b.rows|
    ensures (Concerns(b.rows[i + 1], ctx.bill.id, true) && LiveAt(b.rows, i + 1) && b.rows[i + 1].bill == c)
       <==> (Concerns(b.rows[i], ctx.bill.id, false) && LiveAt(b.rows, i) && b.rows[i].against == c)
    ensures Concerns(b.rows[i], ctx.bill.id, false) && LiveAt(b.rows, i) ==> b.rows[i + 1].amount == b.rows[i].amount
  {
    assert RowSides(b.balances, b.rows[i]) && RowSides(b.balances, b.rows[i + 1]);
    InvoiceConcern(b, ctx, i);
    InvoiceConcern(b, ctx, i + 1);
    assert PairedAt(b.rows, i) && PairedAt(b.rows, i + 1) && TwinsAgreeAt(b.rows, i);
    assert IdIsKey(b.rows[i].bill, ctx.bill) && IdIsKey(c, ctx.bill);
  }

  lemma {:induction false} FirstAddsNothing(b: Books, ctx: Context, c: Key)
    requires LogInv(b.rows) && KeysInv(b) && OnSide(b.balances, c, CR) && |b.rows| > 0
    ensures CreditSide(b.rows, ctx.bill.id, c, 1) == 0
  {
    assert RowSides(b.balances, b.rows[0]) && PairedAt(b.rows, 0);
    assert CreditSide(b.rows, ctx.bill.id, c, 0) == 0;
  }

  lemma {:induction false} SidesMatch(b: Books, ctx: Context, c: Key, n: nat)
    requires LogInv(b.rows) && KeysInv(b) && InvoiceOk(b.balances, ctx) && OnSide(b.balances, c, CR) && n < |b.rows|
    ensures CreditSide(b.rows, ctx.bill.id, c, n + 1) == InvoiceSide(b.rows, ctx.bill.id, c, n)
  {
    if n == 0 {
      FirstAddsNothing(b, ctx, c);
    } else {
      SidesMatch(b, ctx, c, n - 1);
      TwinsAdd(b, ctx, c, n - 1);
    }
  }

  lemma {:induction false} SidesAgree(b: Books, ctx: Context, c: Key)
    requires LogInv(b.rows) && KeysInv(b) && InvoiceOk(b.balances, ctx) && OnSide(b.balances, c, CR)
    ensures CreditSide(b.rows, ctx.bill.id, c, |b.rows|) == Taken(b, ctx, c)
  {
    var n := |b.rows|;
    LinesAdd(b.rows, ctx.bill.id, c, n);
    assert LiveLines(b.rows, ctx.bill.id) == LinesAt(b.rows, LiveIndices(b.rows, ctx.bill.id, false, n));
    if n > 0 {
      SidesMatch(b, ctx, c, n - 1);
      assert PairedAt(b.rows, n - 1) && RowSides(b.balances, b.rows[n - 1]);
      InvoiceConcern(b, ctx, n - 1);
      assert IdIsKey(b.rows[n - 1].bill, ctx.bill);
    }
  }

  // ---------------------------------------------------------------- what undoing gives back

  lemma {:induction false} SignedConcat(a: seq<Row>, d: seq<Row>, c: Key)
    ensures Signed(a + d, c) == Signed(a, c) + Signed(d, c)
  {
    if d == [] {
      assert a + d == a;
    } else {
      var n := |d| - 1;
      assert (a + d)[..|a + d| - 1] == a + d[..n];
      SignedConcat(a, d[..n], c);
    }
  }

  /** Rows that negate the standing rows concerning a bill add up to what those do, negated. */
  lemma {:induction false} UndoneAdds(rows: seq<Row>, billId: nat, c: Key, n: nat, undone: seq<Row>)
    requires n <= |rows| && |undone| == |LiveIndices(rows, billId, true, n)|
    requires forall k | 0 <= k < |undone| ::
      undone[k].bill == rows[LiveIndices(rows, billId, true, n)[k]].bill
      && undone[k].amount == -rows[LiveIndices(rows, billId, true, n)[k]].amount
    ensures Signed(undone, c) == -CreditSide(rows, billId, c, n)
  {
    if n > 0 {
      var before, at := LiveIndices(rows, billId, true, n - 1), LiveIndices(rows, billId, true, n);
      if at == before {
        UndoneAdds(rows, billId, c, n - 1, undone);
      } else {
        var m := |undone| - 1;
        assert forall k | 0 <= k < m :: at[k] == before[k];
        UndoneAdds(rows, billId, c, n - 1, undone[..m]);
      }
    }
  }

  lemma {:induction false} UndoGivesBack(b: Books, ctx: Context, at: seq<nat>, undone: seq<Row>, mid: Books, c: Key)
    requires BooksInv(b) && InvoiceOk(b.balances, ctx) && OnSide(b.balances, c, CR)
    requires Undoing(b, ctx, at, undone) && at == LiveIndices(b.rows, ctx.bill.id, true, |b.rows|)
    requires Run(b, ctx, UndoPhase(b.rows, ctx.bill.id)) == Ok(mid) && mid.rows == b.rows + undone
    ensures OnSide(mid.balances, c, CR) && mid.balances[c].alloc == b.balances[c].alloc - Taken(b, ctx, c)
    ensures mid.balances[c] == b.balances[c].(alloc := mid.balances[c].alloc)
  {
    assert IdIsKey(c, ctx.bill);
    RunConserves(b, ctx, UndoPhase(b.rows, ctx.bill.id), c);
    RunFrame(b, ctx, UndoPhase(b.rows, ctx.bill.id));
    SignedConcat(b.rows, undone, c);
    UndoneAdds(b.rows, ctx.bill.id, c, |b.rows|, undone);
    SidesAgree(b, ctx, c);
  }

  // ---------------------------------------------------------------- when the lines can be posted

  /** An open credit of the company and party, of a kind that can be set off. */
  ghost predicate Eligible(balances: Balances, ctx: Context, c: Key) {
    && c in balances && balances[c].company == ctx.company && balances[c].open && balances[c].party == ctx.party
    && balances[c].side == CR && Routing(balances[c].billType).Some?
  }

  ghost predicate CanPost(balances: Balances, ctx: Context, line: Line) {
    Eligible(balances, ctx, line.Credit()) && line.amount <= balances[line.Credit()].Pending()
  }

  ghost predicate AllCanPost(balances: Balances, ctx: Context, lines: seq<Line>) {
    forall k | 0 <= k < |lines| :: CanPost(balances, ctx, lines[k])
  }

  lemma {:induction false} PostIff(b: Books, ctx: Context, line: Line, index: nat, no: nat)
    requires Backed(b) && 0 < line.amount
    ensures Do(b, ctx, Post(line, index, no)).Ok? <==> CanPost(b.balances, ctx, line)
  {
    assert BackedAt(b, line.Credit());
  }

  ghost predicate SameAt(x: Balances, y: Balances, c: Key) { (c in x <==> c in y) && (c in x ==> x[c] == y[c]) }

  lemma {:induction false} PostsLeave(b: Books, ctx: Context, lines: seq<Line>, no: nat, c: Key)
    requires Run(b, ctx, PostOps(lines, no)).Ok? && forall k | 0 <= k < |lines| :: lines[k].Credit() != c
    ensures SameAt(b.balances, Run(b, ctx, PostOps(lines, no)).value.balances, c)
  {
    if lines != [] {
      var n, ops := |lines| - 1, PostOps(lines, no);
      assert ops[..n] == PostOps(lines[..n], no);
      PostsLeave(b, ctx, lines[..n], no, c);
    }
  }

  lemma {:induction false} CanPostSame(x: Balances, y: Balances, ctx: Context, line: Line)
    requires SameAt(x, y, line.Credit())
    ensures CanPost(x, ctx, line) <==> CanPost(y, ctx, line)
  {
  }

  lemma {:induction false} DistinctBefore(before: seq<Line>, last: Line)
    requires DistinctIds(before + [last])
    ensures DistinctIds(before) && forall k | 0 <= k < |before| :: before[k].Credit() != last.Credit()
  {
    var lines := before + [last];
    forall i, j | 0 <= i < j < |before| ensures IdsDiffer(before, i, j) {
      assert IdsDiffer(lines, i, j);
    }
    forall k | 0 <= k < |before| ensures before[k].Credit() != last.Credit() {
      assert IdsDiffer(lines, k, |before|);
    }
  }

  /** With the lines before it posted, a line can be posted exactly when it could at the start. */
  lemma {:induction false} LastPostIff(b: Books, mid: Books, ctx: Context, before: seq<Line>, line: Line, no: nat)
    requires IdsUnique(b.balances) && Backed(b) && InvoiceOk(b.balances, ctx) && 0 < line.amount
    requires Run(b, ctx, PostOps(before, no)) == Ok(mid)
    requires forall k | 0 <= k < |before| :: before[k].Credit() != line.Credit()
    ensures Do(mid, ctx, Post(line, |before|, no + 2 * |before|)).Ok? <==> CanPost(b.balances, ctx, line)
  {
    RunBacked(b, ctx, PostOps(before, no));
    PostsLeave(b, ctx, before, no, line.Credit());
    CanPostSame(b.balances, mid.balances, ctx, line);
    PostIff(mid, ctx, line, |before|, no + 2 * |before|);
  }

  lemma {:induction false} PostsIff(b: Books, ctx: Context, lines: seq<Line>, no: nat)
    requires IdsUnique(b.balances) && Backed(b) && InvoiceOk(b.balances, ctx) && DistinctIds(lines)
    requires forall k | 0 <= k < |lines| :: 0 < lines[k].amount
    ensures Run(b, ctx, PostOps(lines, no)).Ok? <==> AllCanPost(b.balances, ctx, lines)
  {
    if lines != [] {
      var n, ops := |lines| - 1, PostOps(lines, no);
      assert ops[..n] == PostOps(lines[..n], no);
      assert lines == lines[..n] + [lines[n]];
      DistinctBefore(lines[..n], lines[n]);
      PostsIff(b, ctx, lines[..n], no);
      LastToo(b.balances, ctx, lines);
      if Run(b, ctx, ops[..n]).Ok? {
        LastPostIff(b, Run(b, ctx, ops[..n]).value, ctx, lines[..n], lines[n], no);
      }
    }
  }

  lemma {:induction false} LastToo(balances: Balances, ctx: Context, lines: seq<Line>)
    requires lines != []
    ensures AllCanPost(balances, ctx, lines)
       <==> AllCanPost(balances, ctx, lines[..|lines| - 1]) && CanPost(balances, ctx, lines[|lines| - 1])
  {
    var n := |lines| - 1;
    assert forall k | 0 <= k < n :: lines[..n][k] == lines[k];
  }

  // ---------------------------------------------------------------- when the invoice can be settled

  /** The figure to be written lies within the invoice's face. */
  ghost predicate Fits(balances: Balances, ctx: Context, adjusted: int)
    requires ctx.bill in balances
  {
    0 <= Min(ctx.billAmount, ctx.paid + adjusted) <= balances[ctx.bill].face
  }

  lemma {:induction false} SettleIff(b: Books, ctx: Context, ops: seq<Op>, adjusted: int)
    requires ctx.bill in b.balances
    ensures Run(b, ctx, ops + [Settle(adjusted)]).Ok? <==> Run(b, ctx, ops).Ok? && Fits(b.balances, ctx, adjusted)
  {
    var all := ops + [Settle(adjusted)];
    assert all[..|ops|] == ops;
    if Run(b, ctx, ops).Ok? {
      RunFrame(b, ctx, ops);
      var mid := Run(b, ctx, ops).value;
      assert mid.balances[ctx.bill].(alloc := b.balances[ctx.bill].alloc) == b.balances[ctx.bill];
    }
  }

  // ---------------------------------------------------------------- the theorem

  /** The credit can give the line what it asks, counting what the invoice already takes from it. */
  ghost predicate Covers(b: Books, ctx: Context, line: Line) {
    && Eligible(b.balances, ctx, line.Credit())
    && line.amount <= b.balances[line.Credit()].Pending() + Taken(b, ctx, line.Credit())
  }

  ghost predicate AllCover(b: Books, ctx: Context, lines: seq<Line>) {
    forall k | 0 <= k < |lines| :: Covers(b, ctx, lines[k])
  }

  lemma {:induction false} CoversAfterUndo(b: Books, ctx: Context, at: seq<nat>, undone: seq<Row>, mid: Books, line: Line)
    requires BooksInv(b) && InvoiceOk(b.balances, ctx)
    requires Undoing(b, ctx, at, undone) && at == LiveIndices(b.rows, ctx.bill.id, true, |b.rows|)
    requires Run(b, ctx, UndoPhase(b.rows, ctx.bill.id)) == Ok(mid) && mid.rows == b.rows + undone
    ensures CanPost(mid.balances, ctx, line) <==> Covers(b, ctx, line)
  {
    var c := line.Credit();
    RunFrame(b, ctx, UndoPhase(b.rows, ctx.bill.id));
    if OnSide(b.balances, c, CR) {
      UndoGivesBack(b, ctx, at, undone, mid, c);
    } else if c in b.balances {
      assert mid.balances[c].(alloc := b.balances[c].alloc) == b.balances[c];
    }
  }

  lemma {:induction false} AllCoverAfterUndo(
    b: Books, ctx: Context, at: seq<nat>, undone: seq<Row>, mid: Books, requested: seq<Line>)
    requires BooksInv(b) && InvoiceOk(b.balances, ctx)
    requires Undoing(b, ctx, at, undone) && at == LiveIndices(b.rows, ctx.bill.id, true, |b.rows|)
    requires Run(b, ctx, UndoPhase(b.rows, ctx.bill.id)) == Ok(mid) && mid.rows == b.rows + undone
    ensures AllCanPost(mid.balances, ctx, requested) <==> AllCover(b, ctx, requested)
  {
    forall k | 0 <= k < |requested| ensures CanPost(mid.balances, ctx, requested[k]) <==> Covers(b, ctx, requested[k]) {
      CoversAfterUndo(b, ctx, at, undone, mid, requested[k]);
    }
  }

  /** Undoing succeeds, and leaves the rest to the posts. */
  lemma {:induction false} AfterUndoing(b: Books, ctx: Context, requested: seq<Line>)
    returns (at: seq<nat>, undone: seq<Row>, mid: Books)
    requires BooksInv(b) && InvoiceOk(b.balances, ctx)
    ensures Undoing(b, ctx, at, undone) && at == LiveIndices(b.rows, ctx.bill.id, true, |b.rows|)
    ensures Run(b, ctx, UndoPhase(b.rows, ctx.bill.id)) == Ok(mid) && mid.rows == b.rows + undone
    ensures SameButAlloc(b.balances, mid.balances) && Backed(mid)
    ensures Run(b, ctx, ReplaceOps(b.rows, ctx, requested)) == Run(mid, ctx, PostPhase(b.rows + undone, ctx.bill.id, requested))
  {
    UndoMeansLive(b, ctx);
    var undo := UndoPhase(b.rows, ctx.bill.id);
    at, undone := UndoFacts(b, ctx, undo);
    UndoPhaseRuns(b, ctx, at, undone, undo);
    mid := Run(b, ctx, undo).value;
    RunConcat(b, ctx, undo, PostPhase(b.rows + undone, ctx.bill.id, requested));
  }

  lemma {:induction false} ReplaceIff(b: Books, ctx: Context, requested: seq<Line>)
    requires BooksInv(b) && InvoiceOk(b.balances, ctx) && DistinctIds(requested)
    requires forall k | 0 <= k < |requested| :: 0 < requested[k].amount
    ensures Run(b, ctx, ReplaceOps(b.rows, ctx, requested)).Ok?
       <==> AllCover(b, ctx, requested) && Fits(b.balances, ctx, Sum(requested))
  {
    var at, undone, mid := AfterUndoing(b, ctx, requested);
    AllCoverAfterUndo(b, ctx, at, undone, mid, requested);
    PostSettleIff(b, mid, ctx, requested, HighestRowNo(b.rows + undone, ctx.bill.id) + 1);
  }

  lemma {:induction false} PostSettleIff(b: Books, mid: Books, ctx: Context, requested: seq<Line>, no: nat)
    requires IdsUnique(b.balances) && InvoiceOk(b.balances, ctx) && SameButAlloc(b.balances, mid.balances) && Backed(mid)
    requires DistinctIds(requested) && forall k | 0 <= k < |requested| :: 0 < requested[k].amount
    ensures Run(mid, ctx, PostOps(requested, no) + [Settle(Sum(requested))]).Ok?
       <==> AllCanPost(mid.balances, ctx, requested) && Fits(b.balances, ctx, Sum(requested))
  {
    assert mid.balances[ctx.bill].(alloc := b.balances[ctx.bill].alloc) == b.balances[ctx.bill];
    PostsIff(mid, ctx, requested, no);
    SettleIff(mid, ctx, PostOps(requested, no), Sum(requested));
  }

  /** The request is acceptable; each credit it draws on covers it; and the invoice's figure fits. */
  ghost predicate CanSync(b: Books, ctx: Context, request: Option<seq<Line>>)
    requires InvoiceOk(b.balances, ctx)
  {
    && (request.Some? ==> Acceptable(request.value))
    && if Changes(b.rows, ctx, request)
       then
         && AllCover(b, ctx, Requested(request))
         && Fits(b.balances, ctx, Sum(Requested(request)))
       else
         var live := LiveLines(b.rows, ctx.bill.id);
         live == [] || Fits(b.balances, ctx, Sum(live))
  }

  lemma {:induction false} KeepIff(b: Books, ctx: Context)
    requires InvoiceOk(b.balances, ctx)
    ensures var live := LiveLines(b.rows, ctx.bill.id);
      Run(b, ctx, if live == [] then [] else [Settle(Sum(live))]).Ok? <==> live == [] || Fits(b.balances, ctx, Sum(live))
  {
    var live, none := LiveLines(b.rows, ctx.bill.id), [];
    SettleIff(b, ctx, none, Sum(live));
    assert none + [Settle(Sum(live))] == [Settle(Sum(live))];
  }

  /** With the books in order a sync succeeds if and only if its caller could have seen that it would. */
  lemma {:induction false} SyncSucceedsIff(b: Books, ctx: Context, request: Option<seq<Line>>)
    requires BooksInv(b) && InvoiceOk(b.balances, ctx)
    ensures Sync(b, ctx, request).Ok? <==> CanSync(b, ctx, request)
  {
    if request.Some? { NormalizeMeaning(request.value); }
    if Changes(b.rows, ctx, request) {
      ChangeOps(b, ctx, request);
      ReplaceIff(b, ctx, Requested(request));
    } else {
      KeepIff(b, ctx);
    }
  }
}
