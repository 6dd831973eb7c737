/**
 The engine as it runs: the log and the balances are fields, rows are appended and allocations
 rewritten in loops.  A refusal part-way through rolls the caller's transaction back.
 */
module SetOffBook {
  import opened Prelude
  import opened SetOff

  /** normalizeRequest: collapses repeats of a credit, refuses what the loop meets first. */
  method NormalizeRequest(lines: seq<Line>) returns (r: Result<seq<Line>, Error>)
    ensures r == Normalize(lines)
  {
    var merged := [];
    for i := 0 to |lines|
      invariant Normalize(lines[..i]) == Ok(merged)
    {
      MergeNext(lines, i, merged);
      var step := MergeLine(merged, lines[i], i);
      if step.Err? {
        StaysRefused(lines, i + 1);
        return Err(step.error);
      }
      merged := step.value;
    }
    assert lines[..|lines|] == lines;
    return Ok(merged);
  }

  lemma {:induction false} MergeNext(lines: seq<Line>, i: nat, merged: seq<Line>)
    requires i < |lines| && Normalize(lines[..i]) == Ok(merged)
    ensures Normalize(lines[..i + 1]) == MergeLine(merged, lines[i], i)
  {
    assert lines[..i + 1][..i] == lines[..i];
  }

  /** Once a line is refused, so is every longer request. */
  lemma {:induction false} StaysRefused(lines: seq<Line>, n: nat)
    requires n <= |lines| && Normalize(lines[..n]).Err?
    ensures Normalize(lines) == Normalize(lines[..n])
    decreases |lines| - n
  {
    if n == |lines| {
      assert lines[..n] == lines;
    } else {
      assert lines[..n + 1][..n] == lines[..n];
      StaysRefused(lines, n + 1);
    }
  }

  lemma {:induction false} StaysFailed(b: Books, ctx: Context, ops: seq<Op>, n: nat)
    requires n <= |ops| && Run(b, ctx, ops[..n]).Err?
    ensures Run(b, ctx, ops) == Run(b, ctx, ops[..n])
    decreases |ops| - n
  {
    if n == |ops| {
      assert ops[..n] == ops;
    } else {
      assert ops[..n + 1][..n] == ops[..n];
      StaysFailed(b, ctx, ops, n + 1);
    }
  }

  lemma {:induction false} RunSnoc(b: Books, ctx: Context, ops: seq<Op>, k: nat, mid: Books)
    requires k < |ops| && Run(b, ctx, ops[..k]) == Ok(mid)
    ensures Run(b, ctx, ops[..k + 1]) == Do(mid, ctx, ops[k])
    ensures Do(mid, ctx, ops[k]).Err? ==> Run(b, ctx, ops) == Do(mid, ctx, ops[k])
  {
    assert ops[..k + 1][..k] == ops[..k];
    if Do(mid, ctx, ops[k]).Err? { StaysFailed(b, ctx, ops, k + 1); }
  }

  class Book {
    var rows: seq<Row>
    var balances: Balances

    ghost function Contents(): Books
      reads this
    {
      Books(rows, balances)
    }

    constructor (balances: Balances)
      ensures Contents() == Books([], balances)
    {
      this.rows, this.balances := [], balances;
    }

    /** One round of reverseAll's loop: the undo row, and the credit given back. */
    method UndoOne(ctx: Context, target: nat, row: Row, rowNo: nat) returns (r: Result<(), Error>)
      modifies this
      ensures match Do(old(Contents()), ctx, Undo(target, row, rowNo))
              case Ok(after) => r == Ok(()) && Contents() == after
              case Err(e) => r == Err(e)
    {
      rows := rows + [UndoRow(target, row, rowNo)];
      if row.bill.id != ctx.bill.id {
        var moved := AddToAllocation(balances, row.bill, -row.amount);
        if moved.Err? { return Err(moved.error); }
        balances := Write(balances, moved.value);
      }
      return Ok(());
    }

    /** reverseAll: every standing row of either side of the invoice's pairs. */
    method ReverseAll(ctx: Context) returns (r: Result<(), Error>)
      requires LiveLines(rows, ctx.bill.id) != []
      modifies this
      ensures match Run(old(Contents()), ctx, UndoPhase(old(rows), ctx.bill.id))
              case Ok(after) => r == Ok(()) && Contents() == after
              case Err(e) => r == Err(e)
    {
      var found := rows;
      var at := LiveIndices(found, ctx.bill.id, true, |found|);
      var rowNo := HighestRowNo(found, ctx.bill.id) + 1;
      ghost var start, first := Contents(), rowNo;
      ghost var ops := UndoPhase(found, ctx.bill.id);
      var k := 0;
      while k < |at|
        invariant k <= |at| == |ops| && rowNo == first + k
        invariant Run(start, ctx, ops[..k]) == Ok(Contents())
      {
        assert ops[k] == Undo(at[k], found[at[k]], rowNo);
        RunSnoc(start, ctx, ops, k, Contents());
        r := UndoOne(ctx, at[k], found[at[k]], rowNo);
        if r.Err? { return; }
        rowNo := rowNo + 1;
        k := k + 1;
      }
      assert ops[..k] == ops;
      return Ok(());
    }

    /** One round of postAll's loop: the credit re-read and checked, the pair, the credit relieved. */
    method PostOne(ctx: Context, line: Line, index: nat, rowNo: nat) returns (r: Result<(), Error>)
      modifies this
      ensures match Do(old(Contents()), ctx, Post(line, index, rowNo))
              case Ok(after) => r == Ok(()) && Contents() == after
              case Err(e) => r == Err(e)
    {
      var refused := Refusal(balances, ctx, line, index);
      if refused.Some? { return Err(refused.value); }
      var adjType := Routing(balances[line.Credit()].billType).value;
      var moved := AddToAllocation(balances, line.Credit(), line.amount);
      if moved.Err? { return Err(moved.error); }
      rows := rows + [InvoiceRow(ctx, line, adjType, rowNo), CreditRow(ctx, line, adjType, rowNo + 1)];
      balances := Write(balances, moved.value);
      return Ok(());
    }

    method PostAll(ctx: Context, requested: seq<Line>) returns (r: Result<(), Error>)
      modifies this
      ensures match Run(old(Contents()), ctx, PostOps(requested, HighestRowNo(old(rows), ctx.bill.id) + 1))
              case Ok(after) => r == Ok(()) && Contents() == after
              case Err(e) => r == Err(e)
    {
      var rowNo := HighestRowNo(rows, ctx.bill.id) + 1;
      ghost var start, first := Contents(), rowNo;
      ghost var ops := PostOps(requested, rowNo);
      var k := 0;
      while k < |requested|
        invariant k <= |requested| == |ops| && rowNo == first + 2 * k
        invariant Run(start, ctx, ops[..k]) == Ok(Contents())
      {
        assert ops[k] == Post(requested[k], k, rowNo);
        RunSnoc(start, ctx, ops, k, Contents());
        r := PostOne(ctx, requested[k], k, rowNo);
        if r.Err? { return; }
        rowNo := rowNo + 2;
        k := k + 1;
      }
      assert ops[..k] == ops;
      return Ok(());
    }

    /** settleInvoiceAllocation: an absolute write, capped at the bill. */
    method SettleInvoiceAllocation(ctx: Context, adjusted: int) returns (r: Result<(), Error>)
      modifies this
      ensures match Do(old(Contents()), ctx, Settle(adjusted))
              case Ok(after) => r == Ok(()) && Contents() == after
              case Err(e) => r == Err(e) && Contents() == old(Contents())
    {
      var total := ctx.paid + adjusted;
      var figure := if total > ctx.billAmount then ctx.billAmount else total;
      var moved := SetAllocation(balances, ctx.bill, figure);
      if moved.Err? { return Err(moved.error); }
      balances := Write(balances, moved.value);
      assert old(rows) + [] == rows;
      return Ok(());
    }

    method PostAndSettle(ctx: Context, requested: seq<Line>) returns (r: Result<(), Error>)
      modifies this
      ensures match Run(old(Contents()), ctx, PostPhase(old(rows), ctx.bill.id, requested))
              case Ok(after) => r == Ok(()) && Contents() == after
              case Err(e) => r == Err(e)
    {
      r := PostAll(ctx, requested);
      if r.Err? { return; }
      r := SettleInvoiceAllocation(ctx, Sum(requested));
    }

    /** Undo, post and settle: the branch taken when the request differs from what stands. */
    method Replace(ctx: Context, requested: seq<Line>) returns (r: Result<(), Error>)
      modifies this
      ensures match Run(old(Contents()), ctx, ReplaceOps(old(rows), ctx, requested))
              case Ok(after) => r == Ok(()) && Contents() == after
              case Err(e) => r == Err(e)
    {
      ghost var start, undo := Contents(), UndoPhase(rows, ctx.bill.id);
      ghost var rest := PostPhase(start.rows + UndoRows(undo), ctx.bill.id, requested);
      assert ReplaceOps(start.rows, ctx, requested) == undo + rest;
      RunConcat(start, ctx, undo, rest);
      if LiveLines(rows, ctx.bill.id) != [] {
        r := ReverseAll(ctx);
        if r.Err? { return; }
      }
      RunUndos(start, ctx, undo);
      r := PostAndSettle(ctx, requested);
    }

    /** syncBillAdjustments: all of the request, or nothing and a reason. */
    method SyncBillAdjustments(ctx: Context, request: Option<seq<Line>>) returns (r: Result<Action, Error>)
      modifies this
      ensures match Sync(old(Contents()), ctx, request)
              case Ok(after) => r == Ok(ActionOf(old(rows), ctx, request)) && Contents() == after
              case Err(e) => r == Err(e) && Contents() == old(Contents())
    {
      var savedRows, savedBalances := rows, balances;
      var live := LiveLines(rows, ctx.bill.id);
      var action, done: Result<(), Error> := Unchanged, Ok(());
      var requested := Ok([]);
      if request.Some? { requested := NormalizeRequest(request.value); }
      if requested.Err? { return Err(requested.error); }
      if request.None? || Matches(live, requested.value) {
        if live != [] {
          RunOne(Contents(), ctx, Settle(Sum(live)));
          done := SettleInvoiceAllocation(ctx, Sum(live));
        }
      } else {
        done := Replace(ctx, requested.value);
        action := if live == [] then Action.Posted else if requested.value == [] then Reversed else Replaced;
      }
      if done.Err? {
        rows, balances := savedRows, savedBalances;
        return Err(done.error);
      }
      return Ok(action);
    }
  }

  lemma {:induction false} RunOne(b: Books, ctx: Context, op: Op)
    ensures Run(b, ctx, [op]) == Do(b, ctx, op)
  {
    assert [op][..0] == [];
  }
}
