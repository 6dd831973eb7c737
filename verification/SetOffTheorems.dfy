/**
 What a settlement is worth, whatever the history before it: the standing set is the request, the
 invoice's figure follows from it, repeating it changes nothing, every credit moves by what stands
 against it, and no sync dies on a database check of a credit.
 */
module SetOffTheorems {
  import opened Prelude
  import opened SetOff
  import opened SetOffLog
  import opened SetOffLaws
  import opened SetOffSync

  // ---------------------------------------------------------------- matching = same lines

  lemma {:induction false} LiveIdsDistinct(b: Books, ctx: Context)
    requires OnePerCredit(b.rows) && KeysInv(b) && InvoiceOk(b.balances, ctx)
    ensures DistinctIds(LiveLines(b.rows, ctx.bill.id))
  {
    var at := LiveIndices(b.rows, ctx.bill.id, false, |b.rows|);
    LiveIndicesExact(b.rows, ctx.bill.id, false, |b.rows|);
    forall k, l | 0 <= k < l < |at| ensures b.rows[at[k]].against.id != b.rows[at[l]].against.id {
      assert at[k] in at && at[l] in at;
      InvoiceConcern(b, ctx, at[k]);
      InvoiceConcern(b, ctx, at[l]);
      assert RowSides(b.balances, b.rows[at[k]]) && RowSides(b.balances, b.rows[at[l]]);
      assert IdIsKey(b.rows[at[k]].bill, ctx.bill) && IdIsKey(b.rows[at[l]].bill, ctx.bill);
      assert CreditsDiffer(b.rows, at[k], at[l]);
    }
    var live := LiveLines(b.rows, ctx.bill.id);
    forall k, l | 0 <= k < l < |live| ensures IdsDiffer(live, k, l) {
      assert live[k] == AsLine(b.rows[at[k]]) && live[l] == AsLine(b.rows[at[l]]);
    }
  }

  lemma {:induction false} AtMostOnce(lines: seq<Line>, l: Line)
    requires DistinctIds(lines)
    ensures multiset(lines)[l] <= 1
  {
    if lines != [] {
      var n := |lines| - 1;
      assert lines == lines[..n] + [lines[n]];
      forall i, j | 0 <= i < j < n ensures IdsDiffer(lines[..n], i, j) { assert IdsDiffer(lines, i, j); }
      AtMostOnce(lines[..n], l);
      forall i | 0 <= i < n ensures lines[..n][i].id != lines[n].id { assert IdsDiffer(lines, i, n); }
      assert l == lines[n] ==> l !in lines[..n];
    }
  }

  lemma {:induction false} MatchesIsPermutation(live: seq<Line>, requested: seq<Line>)
    requires DistinctIds(requested) && Matches(live, requested)
    ensures multiset(live) == multiset(requested)
  {
    forall l ensures multiset(requested)[l] <= multiset(live)[l] {
      AtMostOnce(requested, l);
      if l in requested {
        var p := Find(live, l.id).value;
        assert live[p] == l;
        assert l in multiset(live);
      }
    }
    var rest := multiset(live) - multiset(requested);
    assert multiset(live) == multiset(requested) + rest;
    assert |rest| == 0;
  }

  lemma {:induction false} PermutationMatches(live: seq<Line>, requested: seq<Line>)
    requires DistinctIds(live) && multiset(live) == multiset(requested)
    ensures Matches(live, requested)
  {
    assert |live| == |multiset(live)| == |multiset(requested)| == |requested|;
    forall l | l in requested ensures Find(live, l.id).Some? && live[Find(live, l.id).value] == l {
      assert l in multiset(live);
      var i :| 0 <= i < |live| && live[i] == l;
      var p := Find(live, l.id);
      assert p.Some?;
      SameIdSameLine(live, p.value, i);
    }
  }

  lemma {:induction false} SumRemove(lines: seq<Line>, p: nat)
    requires p < |lines|
    ensures Sum(lines) == Sum(lines[..p] + lines[p + 1..]) + lines[p].amount
  {
    var n := |lines| - 1;
    var less := lines[..p] + lines[p + 1..];
    if p == n {
      assert less == lines[..n];
    } else {
      assert less[..n - 1] == lines[..n][..p] + lines[..n][p + 1..];
      SumRemove(lines[..n], p);
    }
  }

  lemma {:induction false} SumOfPermutation(a: seq<Line>, b: seq<Line>)
    requires multiset(a) == multiset(b)
    ensures Sum(a) == Sum(b)
  {
    assert |a| == |multiset(a)| == |multiset(b)| == |b|;
    if a != [] {
      var n := |a| - 1;
      assert a[n] in multiset(b) by { assert a[n] in multiset(a); }
      var p :| 0 <= p < |b| && b[p] == a[n];
      WithoutOne(a, n);
      assert a[..n] + a[n + 1..] == a[..n];
      WithoutOne(b, p);
      SumOfPermutation(a[..n], b[..p] + b[p + 1..]);
      SumRemove(b, p);
    }
  }

  lemma {:induction false} WithoutOne(lines: seq<Line>, p: nat)
    requires p < |lines|
    ensures multiset(lines[..p] + lines[p + 1..]) == multiset(lines) - multiset{lines[p]}
  {
    assert lines == lines[..p] + [lines[p]] + lines[p + 1..];
  }

  // ---------------------------------------------------------------- the settlement theorems

  /**
   After a sync with a request that was sent, what stands for the invoice is the merged request, and
   if anything stood before or stands now the invoice is allocated min(bill, paid + set-offs).
   */
  lemma {:induction false} SyncSettlesRequest(b: Books, ctx: Context, lines: seq<Line>, b': Books)
    requires BooksInv(b) && InvoiceOk(b.balances, ctx)
    requires Sync(b, ctx, Some(lines)) == Ok(b')
    ensures Normalize(lines) == Ok(Requested(Some(lines)))
    ensures multiset(LiveLines(b'.rows, ctx.bill.id)) == multiset(Requested(Some(lines)))
    ensures LiveLines(b.rows, ctx.bill.id) != [] || lines != [] ==>
      ctx.bill in b'.balances
      && b'.balances[ctx.bill].alloc == Min(ctx.billAmount, ctx.paid + Sum(Requested(Some(lines))))
  {
    assert Normalize(lines).Ok?;
    if Changes(b.rows, ctx, Some(lines)) {
      ChangeSettles(b, ctx, lines, b');
    } else {
      KeptSettles(b, ctx, lines, b');
    }
  }

  lemma {:induction false} ChangeSettles(b: Books, ctx: Context, lines: seq<Line>, b': Books)
    requires BooksInv(b) && InvoiceOk(b.balances, ctx)
    requires Sync(b, ctx, Some(lines)) == Ok(b') && Changes(b.rows, ctx, Some(lines))
    ensures LiveLines(b'.rows, ctx.bill.id) == Requested(Some(lines))
    ensures ctx.bill in b'.balances
    ensures b'.balances[ctx.bill].alloc == Min(ctx.billAmount, ctx.paid + Sum(Requested(Some(lines))))
  {
    ChangeReplaces(b, ctx, Some(lines), b');
  }

  lemma {:induction false} KeptSettles(b: Books, ctx: Context, lines: seq<Line>, b': Books)
    requires Sync(b, ctx, Some(lines)) == Ok(b') && !Changes(b.rows, ctx, Some(lines))
    ensures multiset(LiveLines(b'.rows, ctx.bill.id)) == multiset(Requested(Some(lines)))
    ensures LiveLines(b.rows, ctx.bill.id) != [] || lines != [] ==>
      ctx.bill in b'.balances
      && b'.balances[ctx.bill].alloc == Min(ctx.billAmount, ctx.paid + Sum(Requested(Some(lines))))
  {
    KeepBooks(b, ctx, Some(lines), b');
    MatchingLines(LiveLines(b.rows, ctx.bill.id), Requested(Some(lines)), lines);
  }

  lemma {:induction false} MatchingLines(live: seq<Line>, requested: seq<Line>, lines: seq<Line>)
    requires Normalize(lines) == Ok(requested) && Matches(live, requested)
    ensures multiset(live) == multiset(requested) && Sum(live) == Sum(requested)
    ensures lines != [] ==> live != []
  {
    NormalizeMeaning(lines);
    MatchesIsPermutation(live, requested);
    SumOfPermutation(live, requested);
    if lines != [] { assert Names(requested, lines[0].id, lines[0].year); }
  }

  /** An absent request changes no row; the figure is rewritten from what stands. */
  lemma {:induction false} AbsentIsNotEmpty(b: Books, ctx: Context, b': Books)
    requires Sync(b, ctx, None) == Ok(b')
    ensures b'.rows == b.rows
    ensures LiveLines(b.rows, ctx.bill.id) == [] ==> b' == b
    ensures LiveLines(b.rows, ctx.bill.id) != [] ==>
      ctx.bill in b'.balances
      && b'.balances[ctx.bill].alloc == Min(ctx.billAmount, ctx.paid + Sum(LiveLines(b.rows, ctx.bill.id)))
  {
    KeepBooks(b, ctx, None, b');
  }

  /** Repeating a settlement is a no-op on the whole books: no row, no figure. */
  lemma {:induction false} RepeatIsNoOp(b: Books, ctx: Context, lines: seq<Line>, b': Books)
    requires BooksInv(b) && InvoiceOk(b.balances, ctx)
    requires Sync(b, ctx, Some(lines)) == Ok(b')
    ensures Sync(b', ctx, Some(lines)) == Ok(b')
  {
    SyncLeavesSettled(b, ctx, lines, b');
    Resettle(b', ctx, lines);
  }

  ghost predicate SettledBy(b: Books, ctx: Context, lines: seq<Line>) {
    && DistinctIds(LiveLines(b.rows, ctx.bill.id)) && InRange(b, ctx)
    && Normalize(lines) == Ok(Requested(Some(lines)))
    && multiset(LiveLines(b.rows, ctx.bill.id)) == multiset(Requested(Some(lines)))
    && (lines != [] ==>
          && ctx.bill in b.balances
          && b.balances[ctx.bill].alloc == Min(ctx.billAmount, ctx.paid + Sum(Requested(Some(lines)))))
  }

  lemma {:induction false} SyncLeavesSettled(b: Books, ctx: Context, lines: seq<Line>, b': Books)
    requires BooksInv(b) && InvoiceOk(b.balances, ctx)
    requires Sync(b, ctx, Some(lines)) == Ok(b')
    ensures SettledBy(b', ctx, lines)
  {
    SyncSettlesRequest(b, ctx, lines, b');
    SyncLeavesDistinct(b, ctx, Some(lines), b');
    FigureInRange(b, ctx, Some(lines), b');
  }

  lemma {:induction false} SyncLeavesDistinct(b: Books, ctx: Context, request: Option<seq<Line>>, b': Books)
    requires BooksInv(b) && InvoiceOk(b.balances, ctx) && Sync(b, ctx, request) == Ok(b')
    ensures DistinctIds(LiveLines(b'.rows, ctx.bill.id))
  {
    SyncKeepsBooks(b, ctx, request, b');
    LiveIdsDistinct(b', ctx);
  }

  lemma {:induction false} Resettle(b: Books, ctx: Context, lines: seq<Line>)
    requires SettledBy(b, ctx, lines)
    ensures Sync(b, ctx, Some(lines)) == Ok(b)
  {
    var live, requested := LiveLines(b.rows, ctx.bill.id), Requested(Some(lines));
    PermutationMatches(live, requested);
    SumOfPermutation(live, requested);
    if live != [] {
      SettleAgain(b, ctx, Sum(live));
    }
  }

  /** Where a pair stands the invoice's figure has passed its check. */
  ghost predicate InRange(b: Books, ctx: Context) {
    LiveLines(b.rows, ctx.bill.id) != [] ==>
      ctx.bill in b.balances && 0 <= b.balances[ctx.bill].alloc <= b.balances[ctx.bill].face
  }

  lemma {:induction false} FigureInRange(b: Books, ctx: Context, request: Option<seq<Line>>, b': Books)
    requires Sync(b, ctx, request) == Ok(b')
    ensures InRange(b', ctx)
  {
    var ops := Plan(b.rows, ctx, request).value;
    if ops != [] {
      var n := |ops| - 1;
      assert ops[n].Settle?;
      assert Do(Run(b, ctx, ops[..n]).value, ctx, ops[n]) == Ok(b');
    }
  }

  lemma {:induction false} SettleAgain(b: Books, ctx: Context, adjusted: int)
    requires ctx.bill in b.balances && 0 <= b.balances[ctx.bill].alloc <= b.balances[ctx.bill].face
    requires b.balances[ctx.bill].alloc == Min(ctx.billAmount, ctx.paid + adjusted)
    ensures Run(b, ctx, [Settle(adjusted)]) == Ok(b)
  {
    var ops := [Settle(adjusted)];
    assert ops[..0] == [];
    assert Run(b, ctx, ops) == Do(b, ctx, ops[0]);
    assert b.rows + [] == b.rows;
    assert b.balances[ctx.bill := b.balances[ctx.bill].(alloc := b.balances[ctx.bill].alloc)] == b.balances;
  }

  /** Two histories of an invoice that end in the same request end in the same settlement. */
  lemma {:induction false} PathIndependent(b: Books, c: Books, ctx: Context, lines: seq<Line>, b': Books, c': Books)
    requires BooksInv(b) && InvoiceOk(b.balances, ctx) && Sync(b, ctx, Some(lines)) == Ok(b')
    requires BooksInv(c) && InvoiceOk(c.balances, ctx) && Sync(c, ctx, Some(lines)) == Ok(c')
    ensures multiset(LiveLines(b'.rows, ctx.bill.id)) == multiset(LiveLines(c'.rows, ctx.bill.id))
    ensures lines != [] ==>
      ctx.bill in b'.balances && ctx.bill in c'.balances
      && b'.balances[ctx.bill].alloc == c'.balances[ctx.bill].alloc
  {
    SyncSettlesRequest(b, ctx, lines, b');
    SyncSettlesRequest(c, ctx, lines, c');
  }

  /** Each credit's allocation moves by exactly what comes to stand, or ceases to stand, against it. */
  lemma {:induction false} CreditMovesByStanding(b: Books, ctx: Context, request: Option<seq<Line>>, b': Books, c: Key)
    requires BooksInv(b) && InvoiceOk(b.balances, ctx) && Sync(b, ctx, request) == Ok(b')
    requires OnSide(b.balances, c, CR)
    ensures OnSide(b'.balances, c, CR)
    ensures b'.balances[c].alloc - b.balances[c].alloc
         == Standing(b'.rows, c, |b'.rows|) - Standing(b.rows, c, |b.rows|)
    ensures 0 <= b'.balances[c].alloc <= b'.balances[c].face
  {
    SyncKeepsBooks(b, ctx, request, b');
    assert IdIsKey(c, ctx.bill);
    RunConserves(b, ctx, Plan(b.rows, ctx, request).value, c);
    SignedIsStanding(b.rows, c);
    SignedIsStanding(b'.rows, c);
    assert OnSide(b'.balances, c, CR) && BackedAt(b', c);
  }

  // ---------------------------------------------------------------- which refusals there are

  /** Refusals the engine names, or the invoice's own figure failing its check. */
  ghost predicate Named(e: Error, ctx: Context) {
    !e.NoBalanceRow? && (e.SettledCheck? ==> e.key == ctx.bill)
  }

  /** Giving a standing amount back never takes a credit's allocation below zero. */
  lemma {:induction false} UndoNeverTrips(b: Books, mid: Books, ctx: Context, at: seq<nat>, undone: seq<Row>, k: nat)
    requires BooksInv(b) && InvoiceOk(b.balances, ctx) && Undoing(b, ctx, at, undone) && k < |at|
    requires mid.rows == b.rows + undone[..k] && Backed(mid) && SameButAlloc(b.balances, mid.balances)
    ensures Do(mid, ctx, Undo(at[k], b.rows[at[k]], undone[k].rowNo)).Ok?
  {
    var t := at[k];
    var row := b.rows[t];
    if row.bill.id != ctx.bill.id {
      assert RowSides(b.balances, row);
      InvoiceConcern(b, ctx, t);
      assert PairedAt(b.rows, t);
      assert mid.balances[row.bill].(alloc := b.balances[row.bill].alloc) == b.balances[row.bill];
      assert OnSide(mid.balances, row.bill, CR) && BackedAt(mid, row.bill);
      UndoneOnce(b.rows, at[..k], undone[..k]);
      AfterUndo(b.rows, at[..k], undone[..k]);
      assert t !in at[..k];
      SignedIsStanding(mid.rows, row.bill);
      forall i | 0 <= i < |mid.rows| && mid.rows[i].reversalOf.None? ensures 0 < mid.rows[i].amount {
        assert PairedAt(b.rows, i) && mid.rows[i] == b.rows[i];
      }
      StandingCovers(mid.rows, row.bill, t, |mid.rows|);
    }
  }

  lemma {:induction false} UndoPhaseSucceeds(b: Books, ctx: Context, at: seq<nat>, undone: seq<Row>, undo: seq<Op>, k: nat)
    requires BooksInv(b) && InvoiceOk(b.balances, ctx) && Undoing(b, ctx, at, undone) && k <= |at|
    requires |undo| == |at| && forall j | 0 <= j < |at| :: undo[j] == Undo(at[j], b.rows[at[j]], undone[j].rowNo)
    ensures Run(b, ctx, undo[..k]).Ok?
  {
    if k > 0 {
      UndoPhaseSucceeds(b, ctx, at, undone, undo, k - 1);
      assert undo[..k][..k - 1] == undo[..k - 1];
      RunUndos(b, ctx, undo[..k - 1]);
      assert UndoRows(undo[..k - 1]) == undone[..k - 1];
      RunFrame(b, ctx, undo[..k - 1]);
      RunBacked(b, ctx, undo[..k - 1]);
      UndoNeverTrips(b, Run(b, ctx, undo[..k - 1]).value, ctx, at, undone, k - 1);
    }
  }

  lemma {:induction false} PostNamed(b: Books, ctx: Context, line: Line, index: nat, rowNo: nat)
    requires Backed(b) && 0 < line.amount && Do(b, ctx, Post(line, index, rowNo)).Err?
    ensures Named(Do(b, ctx, Post(line, index, rowNo)).error, ctx)
  {
    if Refusal(b.balances, ctx, line, index).None? {
      assert OnSide(b.balances, line.Credit(), CR) && BackedAt(b, line.Credit());
    }
  }

  lemma {:induction false} PostPhaseNamed(b: Books, ctx: Context, lines: seq<Line>, no: nat, ops: seq<Op>)
    requires IdsUnique(b.balances) && Backed(b) && InvoiceOk(b.balances, ctx) && ops == PostOps(lines, no)
    requires forall k | 0 <= k < |lines| :: 0 < lines[k].amount
    ensures Run(b, ctx, ops).Err? ==> Named(Run(b, ctx, ops).error, ctx)
  {
    if lines != [] {
      var n := |lines| - 1;
      assert ops[..n] == PostOps(lines[..n], no);
      PostPhaseNamed(b, ctx, lines[..n], no, ops[..n]);
      if Run(b, ctx, ops[..n]).Ok? {
        RunBacked(b, ctx, ops[..n]);
        if Run(b, ctx, ops).Err? { PostNamed(Run(b, ctx, ops[..n]).value, ctx, lines[n], n, no + 2 * n); }
      }
    }
  }

  lemma {:induction false} SettleNamed(b: Books, ctx: Context, ops: seq<Op>, adjusted: int)
    requires InvoiceOk(b.balances, ctx)
    requires Run(b, ctx, ops).Err? ==> Named(Run(b, ctx, ops).error, ctx)
    ensures var all := ops + [Settle(adjusted)];
      Run(b, ctx, all).Err? ==> Named(Run(b, ctx, all).error, ctx)
  {
    assert (ops + [Settle(adjusted)])[..|ops|] == ops;
    if Run(b, ctx, ops).Ok? { RunFrame(b, ctx, ops); }
  }

  /**
   With the books in order a sync fails only for a reason it names: the two database checks that
   could surface bare, a missing balance row and a credit pushed out of range, are never reached.
   */
  lemma {:induction false} SyncFailsByName(b: Books, ctx: Context, request: Option<seq<Line>>)
    requires BooksInv(b) && InvoiceOk(b.balances, ctx)
    requires Sync(b, ctx, request).Err?
    ensures Named(Sync(b, ctx, request).error, ctx)
  {
    if request.Some? { NormalizeErrors(request.value); }
    if Changes(b.rows, ctx, request) {
      ChangeOps(b, ctx, request);
      ReplaceNamed(b, ctx, Requested(request));
    } else if Plan(b.rows, ctx, request).Ok? && LiveLines(b.rows, ctx.bill.id) != [] {
      SettleNamed(b, ctx, [], Sum(LiveLines(b.rows, ctx.bill.id)));
      assert [] + [Settle(Sum(LiveLines(b.rows, ctx.bill.id)))] == [Settle(Sum(LiveLines(b.rows, ctx.bill.id)))];
    }
  }

  lemma {:induction false} NormalizeErrors(lines: seq<Line>)
    ensures Normalize(lines).Err? ==> Normalize(lines).error.NotPositive? || Normalize(lines).error.YearConflict?
  {
    if lines != [] { NormalizeErrors(lines[..|lines| - 1]); }
  }

  lemma {:induction false} ReplaceNamed(b: Books, ctx: Context, requested: seq<Line>)
    requires BooksInv(b) && InvoiceOk(b.balances, ctx)
    requires forall k | 0 <= k < |requested| :: 0 < requested[k].amount
    ensures var r := Run(b, ctx, ReplaceOps(b.rows, ctx, requested)); r.Err? ==> Named(r.error, ctx)
  {
    UndoMeansLive(b, ctx);
    var undo := UndoPhase(b.rows, ctx.bill.id);
    var at, undone := UndoFacts(b, ctx, undo);
    var rest := PostPhase(b.rows + undone, ctx.bill.id, requested);
    UndoPhaseRuns(b, ctx, at, undone, undo);
    RunConcat(b, ctx, undo, rest);
    var mid := Run(b, ctx, undo).value;
    PostPhaseNamedAfter(b, mid, ctx, requested, HighestRowNo(b.rows + undone, ctx.bill.id) + 1);
  }

  lemma {:induction false} UndoPhaseRuns(b: Books, ctx: Context, at: seq<nat>, undone: seq<Row>, undo: seq<Op>)
    requires BooksInv(b) && InvoiceOk(b.balances, ctx) && Undoing(b, ctx, at, undone)
    requires undo == UndoPhase(b.rows, ctx.bill.id) && undone == UndoRows(undo)
    requires |undo| == |at| && forall j | 0 <= j < |at| :: undo[j].target == at[j] && undo[j].row == b.rows[at[j]]
    ensures Run(b, ctx, undo).Ok? && Run(b, ctx, undo).value.rows == b.rows + undone
    ensures SameButAlloc(b.balances, Run(b, ctx, undo).value.balances) && Backed(Run(b, ctx, undo).value)
  {
    forall j | 0 <= j < |at| ensures undo[j] == Undo(at[j], b.rows[at[j]], undone[j].rowNo) {
      assert undone[j] == UndoRow(undo[j].target, undo[j].row, undo[j].rowNo);
    }
    UndoPhaseSucceeds(b, ctx, at, undone, undo, |undo|);
    assert undo[..|undo|] == undo;
    RunUndos(b, ctx, undo);
    RunFrame(b, ctx, undo);
    RunBacked(b, ctx, undo);
  }

  lemma {:induction false} PostPhaseNamedAfter(b: Books, mid: Books, ctx: Context, lines: seq<Line>, no: nat)
    requires IdsUnique(b.balances) && InvoiceOk(b.balances, ctx) && SameButAlloc(b.balances, mid.balances) && Backed(mid)
    requires forall k | 0 <= k < |lines| :: 0 < lines[k].amount
    ensures var r := Run(mid, ctx, PostOps(lines, no) + [Settle(Sum(lines))]); r.Err? ==> Named(r.error, ctx)
  {
    assert InvoiceOk(mid.balances, ctx) by {
      assert mid.balances[ctx.bill].(alloc := b.balances[ctx.bill].alloc) == b.balances[ctx.bill];
    }
    PostPhaseNamed(mid, ctx, lines, no, PostOps(lines, no));
    SettleNamed(mid, ctx, PostOps(lines, no), Sum(lines));
  }

  // ---------------------------------------------------------------- splitSetOffs

  /**
   The set-offs' totals by liability.  Between them they are short of the whole by exactly the credits that
   are neither an advance nor a sales return; with no such credit they add up to it.
   */
  method SplitSetOffs(lines: seq<Line>, credits: map<Key, BillType>) returns (advance: int, note: int)
    ensures advance == Sum(OfType(lines, credits, Advance)) && note == Sum(OfType(lines, credits, SalesReturn))
    ensures advance + note == Sum(lines) - Sum(Unrouted(lines, credits))
    ensures (forall l <- lines :: Typed(l, credits, Advance) || Typed(l, credits, SalesReturn)) ==> advance + note == Sum(lines)
  {
    advance, note := 0, 0;
    for i := 0 to |lines|
      invariant advance == Sum(OfType(lines[..i], credits, Advance))
      invariant note == Sum(OfType(lines[..i], credits, SalesReturn))
    {
      var line := lines[i];
      OfTypeSnoc(lines, credits, Advance, i);
      OfTypeSnoc(lines, credits, SalesReturn, i);
      if line.Credit() in credits {
        if credits[line.Credit()] == SalesReturn {
          note := note + line.amount;
        } else if credits[line.Credit()] == Advance {
          advance := advance + line.amount;
        }
      }
    }
    assert lines[..|lines|] == lines;
    SplitIsWhole(lines, credits);
    if forall l <- lines :: Typed(l, credits, Advance) || Typed(l, credits, SalesReturn) {
      NoneUnrouted(lines, credits);
    }
  }

  predicate Typed(l: Line, credits: map<Key, BillType>, t: BillType) {
    l.Credit() in credits && credits[l.Credit()] == t
  }

  function OfType(lines: seq<Line>, credits: map<Key, BillType>, t: BillType): seq<Line> {
    if lines == [] then []
    else
      var n := |lines| - 1;
      var rest := OfType(lines[..n], credits, t);
      if Typed(lines[n], credits, t) then rest + [lines[n]] else rest
  }

  function Unrouted(lines: seq<Line>, credits: map<Key, BillType>): seq<Line> {
    if lines == [] then []
    else
      var n := |lines| - 1;
      var rest := Unrouted(lines[..n], credits);
      if Typed(lines[n], credits, Advance) || Typed(lines[n], credits, SalesReturn) then rest else rest + [lines[n]]
  }

  lemma {:induction false} OfTypeSnoc(lines: seq<Line>, credits: map<Key, BillType>, t: BillType, i: nat)
    requires i < |lines|
    ensures Sum(OfType(lines[..i + 1], credits, t))
         == Sum(OfType(lines[..i], credits, t)) + if Typed(lines[i], credits, t) then lines[i].amount else 0
  {
    assert lines[..i + 1][..i] == lines[..i];
  }

  lemma {:induction false} SplitIsWhole(lines: seq<Line>, credits: map<Key, BillType>)
    ensures Sum(OfType(lines, credits, Advance)) + Sum(OfType(lines, credits, SalesReturn)) + Sum(Unrouted(lines, credits))
         == Sum(lines)
  {
    if lines != [] {
      var n := |lines| - 1;
      SplitIsWhole(lines[..n], credits);
      assert lines[..n + 1] == lines;
      OfTypeSnoc(lines, credits, Advance, n);
      OfTypeSnoc(lines, credits, SalesReturn, n);
    }
  }

  lemma {:induction false} NoneUnrouted(lines: seq<Line>, credits: map<Key, BillType>)
    requires forall l <- lines :: Typed(l, credits, Advance) || Typed(l, credits, SalesReturn)
    ensures Unrouted(lines, credits) == []
  {
    if lines != [] {
      NoneUnrouted(lines[..|lines| - 1], credits);
    }
  }
}
