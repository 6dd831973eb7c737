/**
 Books that carry a request: what one replacement leaves each credit with, that another one changes nothing
 there, and when the same lines could be posted once more.
 */
module SetOffSettled {
  import opened Prelude
  import opened SetOff
  import opened SetOffLog
  import opened SetOffLaws
  import opened SetOffSync
  import opened SetOffSuccess
  import opened SetOffRuns

  // ---------------------------------------------------------------- the figure of each credit

  /** What a replacement leaves a credit allocated. */
  ghost function AllocAfter(b: Books, ctx: Context, requested: seq<Line>, c: Key): int
    requires c in b.balances
  {
    b.balances[c].alloc - Taken(b, ctx, c) + TakenOf(requested, c)
  }

  lemma {:induction false} PostsMove(b: Books, ctx: Context, lines: seq<Line>, no: nat, c: Key)
    requires Run(b, ctx, PostOps(lines, no)).Ok? && c in b.balances
    ensures var b' := Run(b, ctx, PostOps(lines, no)).value;
      c in b'.balances && b'.balances[c].alloc == b.balances[c].alloc + TakenOf(lines, c)
  {
    if lines != [] {
      var n, ops := |lines| - 1, PostOps(lines, no);
      assert ops[..n] == PostOps(lines[..n], no);
      PostsMove(b, ctx, lines[..n], no, c);
      OneMoves(Run(b, ctx, ops[..n]).value, ctx, lines[n], n, no + 2 * n, c);
    }
  }

  lemma {:induction false} OneMoves(b: Books, ctx: Context, line: Line, index: nat, no: nat, c: Key)
    requires Do(b, ctx, Post(line, index, no)).Ok? && c in b.balances
    ensures var b' := Do(b, ctx, Post(line, index, no)).value;
      c in b'.balances && b'.balances[c].alloc == b.balances[c].alloc + if line.Credit() == c then line.amount else 0
  {
    WriteMoves(b.balances, line.Credit(), line.amount, c);
  }

  lemma {:induction false} SettleMoves(b: Books, ctx: Context, ops: seq<Op>, adjusted: int, c: Key)
    requires Run(b, ctx, ops + [Settle(adjusted)]).Ok? && c in b.balances && c != ctx.bill
    ensures Run(b, ctx, ops).Ok?
    ensures c in Run(b, ctx, ops).value.balances && c in Run(b, ctx, ops + [Settle(adjusted)]).value.balances
    ensures Run(b, ctx, ops + [Settle(adjusted)]).value.balances[c].alloc == Run(b, ctx, ops).value.balances[c].alloc
  {
    assert (ops + [Settle(adjusted)])[..|ops|] == ops;
    RunFrame(b, ctx, ops);
  }

  lemma {:induction false} PhaseMoves(b: Books, ctx: Context, lines: seq<Line>, no: nat, b': Books, c: Key)
    requires Run(b, ctx, PostOps(lines, no) + [Settle(Sum(lines))]) == Ok(b') && c in b.balances && c != ctx.bill
    ensures c in b'.balances && b'.balances[c].alloc == b.balances[c].alloc + TakenOf(lines, c)
  {
    SettleMoves(b, ctx, PostOps(lines, no), Sum(lines), c);
    PostsMove(b, ctx, lines, no, c);
  }

  lemma {:induction false} ReplaceMoves(b: Books, ctx: Context, requested: seq<Line>, b': Books, c: Key)
    requires BooksInv(b) && InvoiceOk(b.balances, ctx) && OnSide(b.balances, c, CR)
    requires Run(b, ctx, ReplaceOps(b.rows, ctx, requested)) == Ok(b')
    ensures c in b'.balances && b'.balances[c].alloc == AllocAfter(b, ctx, requested, c)
  {
    var at, undone, mid := AfterUndoing(b, ctx, requested);
    UndoGivesBack(b, ctx, at, undone, mid, c);
    PhaseMoves(mid, ctx, requested, HighestRowNo(b.rows + undone, ctx.bill.id) + 1, b', c);
  }

  // ---------------------------------------------------------------- books that carry the request

  /** The request stands, and every credit has the figure that one sync of `b` leaves it with. */
  ghost predicate Settled(b: Books, ctx: Context, requested: seq<Line>, x: Books) {
    && BooksInv(x) && InvoiceOk(x.balances, ctx) && SameButAlloc(b.balances, x.balances)
    && LiveLines(x.rows, ctx.bill.id) == requested
    && forall c {:trigger AllocIs(b, ctx, requested, x, c)} :: AllocIs(b, ctx, requested, x, c)
  }

  ghost predicate AllocIs(b: Books, ctx: Context, requested: seq<Line>, x: Books, c: Key) {
    OnSide(b.balances, c, CR) ==> c in x.balances && x.balances[c].alloc == AllocAfter(b, ctx, requested, c)
  }

  ghost predicate Wellformed(requested: seq<Line>) {
    DistinctIds(requested) && forall k | 0 <= k < |requested| :: 0 < requested[k].amount
  }

  lemma {:induction false} ReplaceKeepsAll(x: Books, ctx: Context, requested: seq<Line>, x': Books)
    requires BooksInv(x) && InvoiceOk(x.balances, ctx) && Wellformed(requested)
    requires Run(x, ctx, ReplaceOps(x.rows, ctx, requested)) == Ok(x')
    ensures BooksInv(x') && InvoiceOk(x'.balances, ctx) && SameButAlloc(x.balances, x'.balances)
    ensures LiveLines(x'.rows, ctx.bill.id) == requested
  {
    UndoMeansLive(x, ctx);
    var at, undone, posted := ReplaceShape(x, ctx, requested, x');
    ReplaceOutcome(x, ctx, requested, at, undone, posted, x');
    RunFrame(x, ctx, ReplaceOps(x.rows, ctx, requested));
    RunBacked(x, ctx, ReplaceOps(x.rows, ctx, requested));
  }

  /** The first replacement settles the books. */
  lemma {:induction false} FirstSettles(b: Books, ctx: Context, requested: seq<Line>, x: Books)
    requires BooksInv(b) && InvoiceOk(b.balances, ctx) && Wellformed(requested)
    requires Run(b, ctx, ReplaceOps(b.rows, ctx, requested)) == Ok(x)
    ensures Settled(b, ctx, requested, x)
  {
    ReplaceKeepsAll(b, ctx, requested, x);
    forall c ensures AllocIs(b, ctx, requested, x, c) {
      if OnSide(b.balances, c, CR) { ReplaceMoves(b, ctx, requested, x, c); }
    }
  }

  /** And another one leaves them settled. */
  lemma {:induction false} AgainSettles(b: Books, ctx: Context, requested: seq<Line>, x: Books, x': Books)
    requires Settled(b, ctx, requested, x) && Wellformed(requested)
    requires Run(x, ctx, ReplaceOps(x.rows, ctx, requested)) == Ok(x')
    ensures Settled(b, ctx, requested, x')
  {
    ReplaceKeepsAll(x, ctx, requested, x');
    SameTrans(b.balances, x.balances, x'.balances);
    forall c ensures AllocIs(b, ctx, requested, x', c) {
      if OnSide(b.balances, c, CR) {
        assert AllocIs(b, ctx, requested, x, c);
        assert x.balances[c].(alloc := b.balances[c].alloc) == b.balances[c];
        ReplaceMoves(x, ctx, requested, x', c);
      }
    }
  }

  lemma {:induction false} OneSettle(x: Books, ctx: Context, adjusted: int)
    ensures Run(x, ctx, [Settle(adjusted)]) == Do(x, ctx, Settle(adjusted))
  {
    assert [Settle(adjusted)][..0] == [];
  }

  /** Writing the invoice's figure alone leaves them settled too. */
  lemma {:induction false} FigureSettles(b: Books, ctx: Context, requested: seq<Line>, x: Books, ops: seq<Op>, x': Books)
    requires Settled(b, ctx, requested, x) && (ops == [] || exists adjusted :: ops == [Settle(adjusted)])
    requires Run(x, ctx, ops) == Ok(x')
    ensures Settled(b, ctx, requested, x') && x'.rows == x.rows
  {
    if ops != [] {
      var adjusted :| ops == [Settle(adjusted)];
      OneSettle(x, ctx, adjusted);
      SettledFrom(x, ctx, adjusted, x');
      RunBacked(x, ctx, ops);
      KeysInvSame(x, x'.balances);
      SameTrans(b.balances, x.balances, x'.balances);
      forall c ensures AllocIs(b, ctx, requested, x', c) {
        assert AllocIs(b, ctx, requested, x, c);
      }
    }
  }

  // ---------------------------------------------------------------- posting once more

  /** Counting what the invoice already takes from it, the credit covers the line twice. */
  ghost predicate CoversTwice(b: Books, ctx: Context, line: Line) {
    && line.Credit() in b.balances
    && 2 * line.amount <= b.balances[line.Credit()].Pending() + Taken(b, ctx, line.Credit())
  }

  ghost predicate AllCoverTwice(b: Books, ctx: Context, lines: seq<Line>) {
    forall k | 0 <= k < |lines| :: CoversTwice(b, ctx, lines[k])
  }

  lemma {:induction false} TakenNone(lines: seq<Line>, c: Key)
    requires forall i | 0 <= i < |lines| :: lines[i].Credit() != c
    ensures TakenOf(lines, c) == 0
  {
    if lines != [] { TakenNone(lines[..|lines| - 1], c); }
  }

  lemma {:induction false} TakenOfLine(lines: seq<Line>, k: nat)
    requires DistinctIds(lines) && k < |lines|
    ensures TakenOf(lines, lines[k].Credit()) == lines[k].amount
  {
    var n := |lines| - 1;
    var before, c := lines[..n], lines[k].Credit();
    forall i, j | 0 <= i < j < n ensures IdsDiffer(before, i, j) { assert IdsDiffer(lines, i, j); }
    if k < n {
      assert IdsDiffer(lines, k, n);
      TakenOfLine(before, k);
    } else {
      forall i | 0 <= i < n ensures before[i].Credit() != c { assert IdsDiffer(lines, i, n); }
      TakenNone(before, c);
    }
  }

  /** On settled books a line can be posted once more exactly when its credit covers it twice. */
  lemma {:induction false} OnceMoreIff(b: Books, ctx: Context, requested: seq<Line>, x: Books, k: nat)
    requires Settled(b, ctx, requested, x) && Wellformed(requested) && k < |requested|
    requires Covers(b, ctx, requested[k])
    ensures CanPost(x.balances, ctx, requested[k]) <==> CoversTwice(b, ctx, requested[k])
  {
    var c := requested[k].Credit();
    assert AllocIs(b, ctx, requested, x, c);
    assert x.balances[c].(alloc := b.balances[c].alloc) == b.balances[c];
    TakenOfLine(requested, k);
  }

  lemma {:induction false} PostsAgainIff(b: Books, ctx: Context, requested: seq<Line>, x: Books, no: nat)
    requires BooksInv(b) && InvoiceOk(b.balances, ctx) && Settled(b, ctx, requested, x) && Wellformed(requested)
    requires Run(b, ctx, ReplaceOps(b.rows, ctx, requested)).Ok?
    ensures Run(x, ctx, PostOps(requested, no) + [Settle(Sum(requested))]).Ok? <==> AllCoverTwice(b, ctx, requested)
  {
    ReplaceIff(b, ctx, requested);
    forall k | 0 <= k < |requested| ensures CanPost(x.balances, ctx, requested[k]) <==> CoversTwice(b, ctx, requested[k]) {
      OnceMoreIff(b, ctx, requested, x, k);
    }
    PostSettleIff(b, x, ctx, requested, no);
  }

  // ---------------------------------------------------------------- what a replacement spends

  /** Nothing of the invoice that stood before stands after it. */
  ghost predicate Spends(rows: seq<Row>, rows': seq<Row>, billId: nat) {
    rows <= rows' && forall i | 0 <= i < |rows| && LiveAt(rows', i) :: LiveAt(rows, i) && !Concerns(rows[i], billId, true)
  }

  lemma {:induction false} UndoSpends(x: Books, ctx: Context, at: seq<nat>, undone: seq<Row>)
    requires Undoing(x, ctx, at, undone)
    ensures Spends(x.rows, x.rows + undone, ctx.bill.id)
  {
    UndoLeaves(x, ctx, at, undone);
  }

  lemma {:induction false} PostSpends(rows: seq<Row>, mid: seq<Row>, posted: seq<Row>, billId: nat)
    requires Spends(rows, mid, billId) && ReversalsExact(mid) && forall k | 0 <= k < |posted| :: posted[k].reversalOf.None?
    ensures Spends(rows, mid + posted, billId)
  {
    AfterPost(mid, posted);
  }

  lemma {:induction false} ReplacementSpends(x: Books, ctx: Context, requested: seq<Line>, at: seq<nat>, undone: seq<Row>, posted: seq<Row>)
    requires LogInv(x.rows) && KeysInv(x) && InvoiceOk(x.balances, ctx) && Undoing(x, ctx, at, undone)
    requires PostedRows(x.balances, ctx, requested, HighestRowNo(x.rows + undone, ctx.bill.id) + 1, posted)
    ensures Spends(x.rows, x.rows + undone + posted, ctx.bill.id)
  {
    UndoKeepsLog(x, ctx, at, undone);
    UndoSpends(x, ctx, at, undone);
    PostedPlain(x.balances, ctx, requested, HighestRowNo(x.rows + undone, ctx.bill.id) + 1, posted);
    PostSpends(x.rows, x.rows + undone, posted, ctx.bill.id);
  }

  lemma {:induction false} ReplaceSpends(x: Books, ctx: Context, requested: seq<Line>, x': Books)
    requires BooksInv(x) && InvoiceOk(x.balances, ctx)
    requires Run(x, ctx, ReplaceOps(x.rows, ctx, requested)) == Ok(x')
    ensures Spends(x.rows, x'.rows, ctx.bill.id)
  {
    UndoMeansLive(x, ctx);
    var at, undone, posted := ReplaceShape(x, ctx, requested, x');
    ReplacementSpends(x, ctx, requested, at, undone, posted);
  }

  lemma {:induction false} NothingLeft(rows: seq<Row>, rows': seq<Row>, billId: nat, found: seq<nat>)
    requires Spends(rows, rows', billId) && InLog(rows, found)
    requires forall k | 0 <= k < |found| && LiveAt(rows, found[k]) :: Concerns(rows[found[k]], billId, true)
    ensures Unreversed(rows', found) == []
  {
    if found != [] { NothingLeft(rows, rows', billId, found[..|found| - 1]); }
  }

  /** A standing row of the invoice that stood no longer is reversed. */
  lemma {:induction false} NowReversed(rows: seq<Row>, rows': seq<Row>, billId: nat, i: nat)
    requires Spends(rows, rows', billId) && i < |rows| && LiveAt(rows, i) && Concerns(rows[i], billId, true)
    ensures !Reversible(rows', i)
  {
    assert rows'[i] == rows[i] && !LiveAt(rows', i);
  }

  lemma {:induction false} StillReversed(rows: seq<Row>, rows': seq<Row>, i: nat)
    requires rows <= rows' && !Reversible(rows, i)
    ensures !Reversible(rows', i)
  {
    var j :| 0 <= j < |rows| && rows[j].reversalOf == Some(i);
    assert rows'[j] == rows[j];
  }
}
