/**
 What the set-off log keeps through every sync: reversals negate exactly their target and happen
 at most once, pairs are written and undone together, one pair per invoice and credit stands, and
 a credit's allocation moves by exactly the signed sum of its rows.
 */
module SetOffLog {
  import opened Prelude
  import opened SetOff

  // ---------------------------------------------------------------- the invariant

  ghost predicate ReversalExactAt(rows: seq<Row>, i: nat)
    requires i < |rows|
  {
    rows[i].reversalOf.Some? ==>
      var t := rows[i].reversalOf.value;
      t < i && rows[t].reversalOf.None? && rows[i] == UndoRow(t, rows[t], rows[i].rowNo)
  }

  /** Every reversal names an earlier plain row and is its exact negation. */
  ghost predicate ReversalsExact(rows: seq<Row>) {
    forall i | 0 <= i < |rows| :: ReversalExactAt(rows, i)
  }

  ghost predicate UndoDiffer(rows: seq<Row>, i: nat, j: nat)
    requires i < |rows| && j < |rows|
  {
    rows[i].reversalOf.Some? ==> rows[i].reversalOf != rows[j].reversalOf
  }

  ghost predicate ReversedOnce(rows: seq<Row>) {
    forall i, j | 0 <= i < j < |rows| :: UndoDiffer(rows, i, j)
  }

  ghost predicate IsTwin(invoice: Row, credit: Row) {
    && invoice.side == CR && credit.side == DR
    && credit.bill == invoice.against && credit.against == invoice.bill
    && credit.amount == invoice.amount && credit.adjType == invoice.adjType
  }

  /** A plain invoice row is followed by its credit-side twin, and a plain credit row preceded by it. */
  ghost predicate PairedAt(rows: seq<Row>, i: nat)
    requires i < |rows|
  {
    rows[i].reversalOf.None? ==>
      && 0 < rows[i].amount
      && (rows[i].side == CR ==> i + 1 < |rows| && rows[i + 1].reversalOf.None? && IsTwin(rows[i], rows[i + 1]))
      && (rows[i].side == DR ==> 0 < i && rows[i - 1].reversalOf.None? && IsTwin(rows[i - 1], rows[i]))
  }

  ghost predicate Paired(rows: seq<Row>) {
    forall i | 0 <= i < |rows| :: PairedAt(rows, i)
  }

  lemma {:induction false} TwinAfter(rows: seq<Row>, i: nat)
    requires Paired(rows) && i < |rows| && rows[i].reversalOf.None? && rows[i].side == CR
    ensures i + 1 < |rows| && rows[i + 1].reversalOf.None? && IsTwin(rows[i], rows[i + 1])
  {
    assert PairedAt(rows, i);
  }

  lemma {:induction false} TwinBefore(rows: seq<Row>, i: nat)
    requires Paired(rows) && i < |rows| && rows[i].reversalOf.None? && rows[i].side == DR
    ensures 0 < i && rows[i - 1].reversalOf.None? && IsTwin(rows[i - 1], rows[i])
  {
    assert PairedAt(rows, i);
  }

  ghost predicate TwinsAgreeAt(rows: seq<Row>, i: nat)
    requires i + 1 < |rows|
  {
    rows[i].reversalOf.None? && rows[i].side == CR ==> (LiveAt(rows, i) <==> LiveAt(rows, i + 1))
  }

  /** The two rows of a pair stand or fall together. */
  ghost predicate TwinsAgree(rows: seq<Row>) {
    forall i | 0 <= i < |rows| - 1 :: TwinsAgreeAt(rows, i)
  }

  ghost predicate CreditsDiffer(rows: seq<Row>, i: nat, j: nat)
    requires i < |rows| && j < |rows|
  {
    rows[i].side == CR && rows[j].side == CR && LiveAt(rows, i) && LiveAt(rows, j) ==>
      rows[i].bill.id != rows[j].bill.id || rows[i].against.id != rows[j].against.id
  }

  /** At most one standing row per invoice and credit. */
  ghost predicate OnePerCredit(rows: seq<Row>) {
    forall i, j | 0 <= i < j < |rows| :: CreditsDiffer(rows, i, j)
  }

  ghost predicate RowNosInOrder(rows: seq<Row>, i: nat, j: nat)
    requires i < |rows| && j < |rows|
  {
    rows[i].side == CR && rows[j].side == CR && rows[i].bill.id == rows[j].bill.id ==> rows[i].rowNo < rows[j].rowNo
  }

  /** The ordinals of an invoice's rows follow the order they were written in. */
  ghost predicate RowNosAscend(rows: seq<Row>) {
    forall i, j | 0 <= i < j < |rows| :: RowNosInOrder(rows, i, j)
  }

  ghost predicate LogInv(rows: seq<Row>) {
    && ReversalsExact(rows) && ReversedOnce(rows) && Paired(rows)
    && TwinsAgree(rows) && OnePerCredit(rows) && RowNosAscend(rows)
  }

  ghost predicate OnSide(balances: Balances, key: Key, side: Side) {
    key in balances && balances[key].side == side
  }

  /** Invoice rows move a DR balance against a CR one; credit rows the other way round. */
  ghost predicate RowSides(balances: Balances, r: Row) {
    if r.side == CR then OnSide(balances, r.bill, DR) && OnSide(balances, r.against, CR)
    else OnSide(balances, r.bill, CR) && OnSide(balances, r.against, DR)
  }

  ghost predicate IdIsKey(k: Key, l: Key) { k.id == l.id ==> k == l }

  /** A bill id is unique across the years' partitions. */
  ghost predicate IdsUnique(balances: Balances) {
    forall k, l {:trigger IdIsKey(k, l)} | k in balances && l in balances :: IdIsKey(k, l)
  }

  ghost predicate KeysInv(b: Books) {
    && IdsUnique(b.balances)
    && (forall i {:trigger RowSides(b.balances, b.rows[i])} | 0 <= i < |b.rows| :: RowSides(b.balances, b.rows[i]))
  }

  /** The signed sum of the rows that move a balance. */
  ghost function Signed(rows: seq<Row>, key: Key): int {
    if rows == [] then 0
    else
      var r := rows[|rows| - 1];
      Signed(rows[..|rows| - 1], key) + if r.bill == key then r.amount else 0
  }

  ghost predicate BackedAt(b: Books, c: Key) {
    OnSide(b.balances, c, CR) ==>
      0 <= b.balances[c].alloc <= b.balances[c].face && Signed(b.rows, c) <= b.balances[c].alloc
  }

  /** No credit is allocated beyond its face, nor for less than its rows account for. */
  ghost predicate Backed(b: Books) {
    forall c {:trigger BackedAt(b, c)} :: BackedAt(b, c)
  }

  ghost predicate BooksInv(b: Books) { LogInv(b.rows) && KeysInv(b) && Backed(b) }

  /** The caller's contract: the bill being settled has its receivable row. */
  ghost predicate InvoiceOk(balances: Balances, ctx: Context) { OnSide(balances, ctx.bill, DR) }

  ghost predicate SameButAlloc(a: Balances, b: Balances) {
    a.Keys == b.Keys && forall k | k in a :: b[k].(alloc := a[k].alloc) == a[k]
  }

  // ---------------------------------------------------------------- live positions

  lemma {:induction false} LiveIndexIn(rows: seq<Row>, billId: nat, both: bool, n: nat, i: nat)
    requires n <= |rows|
    ensures i in LiveIndices(rows, billId, both, n) <==> i < n && Concerns(rows[i], billId, both) && LiveAt(rows, i)
  {
    if n > 0 {
      LiveIndexIn(rows, billId, both, n - 1, i);
    }
  }

  ghost predicate Ascends(at: seq<nat>) { forall k, l | 0 <= k < l < |at| :: at[k] < at[l] }

  lemma {:induction false} AscendsOn(before: seq<nat>, n: nat)
    requires Ascends(before) && forall k | 0 <= k < |before| :: before[k] < n
    ensures Ascends(before + [n])
  {
  }

  lemma {:induction false} LiveIndicesAscend(rows: seq<Row>, billId: nat, both: bool, n: nat)
    requires n <= |rows|
    ensures Ascends(LiveIndices(rows, billId, both, n))
  {
    if n > 0 {
      LiveIndicesAscend(rows, billId, both, n - 1);
      AscendsOn(LiveIndices(rows, billId, both, n - 1), n - 1);
    }
  }

  lemma {:induction false} LiveIndicesExact(rows: seq<Row>, billId: nat, both: bool, n: nat)
    requires n <= |rows|
    ensures var at := LiveIndices(rows, billId, both, n);
      && (forall i :: i in at <==> 0 <= i < n && Concerns(rows[i], billId, both) && LiveAt(rows, i))
      && (forall k, l | 0 <= k < l < |at| :: at[k] < at[l])
  {
    LiveIndicesAscend(rows, billId, both, n);
    forall i: nat
      ensures i in LiveIndices(rows, billId, both, n) <==> i < n && Concerns(rows[i], billId, both) && LiveAt(rows, i)
    {
      LiveIndexIn(rows, billId, both, n, i);
    }
  }

  /** Appending undo rows retires exactly their targets; the undo rows themselves never stand. */
  lemma {:induction false} AfterUndo(rows: seq<Row>, at: seq<nat>, undone: seq<Row>)
    requires |undone| == |at|
    requires forall k | 0 <= k < |at| :: at[k] < |rows| && undone[k].reversalOf == Some(at[k])
    ensures forall j | 0 <= j < |rows| :: LiveAt(rows + undone, j) <==> LiveAt(rows, j) && j !in at
    ensures forall j | |rows| <= j < |rows + undone| :: !LiveAt(rows + undone, j)
  {
    var all := rows + undone;
    forall j | 0 <= j < |rows|
      ensures LiveAt(all, j) <==> LiveAt(rows, j) && j !in at
    {
      if j in at {
        var k :| 0 <= k < |at| && at[k] == j;
        assert all[|rows| + k].reversalOf == Some(j);
      } else if LiveAt(all, j) {
        forall i | 0 <= i < |rows| ensures rows[i].reversalOf != Some(j) { assert all[i] == rows[i]; }
      }
    }
  }

  /** Appending plain rows leaves every earlier row as it was, and the new ones stand. */
  lemma {:induction false} AfterPost(rows: seq<Row>, posted: seq<Row>)
    requires ReversalsExact(rows)
    requires forall k | 0 <= k < |posted| :: posted[k].reversalOf.None?
    ensures forall j | 0 <= j < |rows| :: LiveAt(rows + posted, j) <==> LiveAt(rows, j)
    ensures forall j | |rows| <= j < |rows + posted| :: LiveAt(rows + posted, j)
  {
    var all := rows + posted;
    assert forall i | 0 <= i < |rows| :: ReversalExactAt(rows, i) && all[i] == rows[i];
    forall j | 0 <= j < |rows| ensures LiveAt(all, j) <==> LiveAt(rows, j) {
      if LiveAt(all, j) {
        forall i | 0 <= i < |rows| ensures rows[i].reversalOf != Some(j) { assert all[i] == rows[i]; }
      }
    }
  }

  // ---------------------------------------------------------------- what a run writes

  lemma {:induction false} RunFrame(b: Books, ctx: Context, ops: seq<Op>)
    requires Run(b, ctx, ops).Ok?
    ensures var b' := Run(b, ctx, ops).value;
      b.rows <= b'.rows && SameButAlloc(b.balances, b'.balances)
  {
    if ops != [] { RunFrame(b, ctx, ops[..|ops| - 1]); }
  }

  ghost function TypeOf(balances: Balances, key: Key): AdjType {
    if key in balances && Routing(balances[key].billType).Some?
    then Routing(balances[key].billType).value else AdvanceAdjust
  }

  /** The two rows a line writes. */
  ghost predicate PairIs(balances: Balances, ctx: Context, l: Line, no: nat, r: Row, s: Row) {
    var t := TypeOf(balances, l.Credit());
    r == InvoiceRow(ctx, l, t, no) && s == CreditRow(ctx, l, t, no + 1)
  }

  /** The pairs a list of lines writes, in order. */
  ghost predicate PostedRows(balances: Balances, ctx: Context, lines: seq<Line>, no: nat, posted: seq<Row>) {
    && |posted| == 2 * |lines|
    && (lines != [] ==>
          var n := |lines| - 1;
          && PostedRows(balances, ctx, lines[..n], no, posted[..2 * n])
          && PairIs(balances, ctx, lines[n], no + 2 * n, posted[2 * n], posted[2 * n + 1]))
  }

  /** One more pair at the end of the pairs posted. */
  lemma {:induction false} PostedMore(balances: Balances, ctx: Context, lines: seq<Line>, no: nat, before: seq<Row>, r: Row, s: Row)
    requires lines != [] && PostedRows(balances, ctx, lines[..|lines| - 1], no, before)
    requires PairIs(balances, ctx, lines[|lines| - 1], no + 2 * (|lines| - 1), r, s)
    ensures PostedRows(balances, ctx, lines, no, before + [r, s])
  {
    assert (before + [r, s])[..2 * (|lines| - 1)] == before;
  }

  lemma {:induction false} FirstPosts(lines: seq<Line>, rowNo: nat, ops: seq<Op>)
    requires lines != [] && ops == PostOps(lines, rowNo)
    ensures var n := |lines| - 1;
      |ops| == n + 1 && ops[..n] == PostOps(lines[..n], rowNo) && ops[n] == Post(lines[n], n, rowNo + 2 * n)
  {
  }

  lemma {:induction false} RunPosts(b: Books, ctx: Context, lines: seq<Line>, rowNo: nat, ops: seq<Op>, b': Books) returns (posted: seq<Row>)
    requires ops == PostOps(lines, rowNo) && Run(b, ctx, ops) == Ok(b')
    ensures b'.rows == b.rows + posted
    ensures PostedRows(b.balances, ctx, lines, rowNo, posted)
  {
    if lines == [] {
      posted := [];
    } else {
      var n := |lines| - 1;
      FirstPosts(lines, rowNo, ops);
      var mid := Run(b, ctx, ops[..n]).value;
      var before := RunPosts(b, ctx, lines[..n], rowNo, ops[..n], mid);
      RunFrame(b, ctx, ops[..n]);
      posted := PostMore(b, mid, ctx, lines, rowNo, before, b');
    }
  }

  lemma {:induction false} PostMore(b: Books, mid: Books, ctx: Context, lines: seq<Line>, no: nat, before: seq<Row>, b': Books)
    returns (posted: seq<Row>)
    requires lines != [] && SameButAlloc(b.balances, mid.balances) && mid.rows == b.rows + before
    requires PostedRows(b.balances, ctx, lines[..|lines| - 1], no, before)
    requires Do(mid, ctx, Post(lines[|lines| - 1], |lines| - 1, no + 2 * (|lines| - 1))) == Ok(b')
    ensures b'.rows == b.rows + posted && PostedRows(b.balances, ctx, lines, no, posted)
  {
    var n := |lines| - 1;
    var r, s := PostLast(b, mid, ctx, lines[n], n, no + 2 * n);
    posted := before + [r, s];
    PostedMore(b.balances, ctx, lines, no, before, r, s);
    RowsJoin(b.rows, before, [r, s]);
  }

  lemma {:induction false} RowsJoin(a: seq<Row>, b: seq<Row>, c: seq<Row>)
    ensures a + b + c == a + (b + c)
  {
  }

  lemma {:induction false} PostedCredits(b: Books, ctx: Context, lines: seq<Line>, rowNo: nat, ops: seq<Op>)
    requires ops == PostOps(lines, rowNo) && Run(b, ctx, ops).Ok?
    ensures forall k | 0 <= k < |lines| :: OnSide(b.balances, lines[k].Credit(), CR)
  {
    if lines != [] {
      var n := |lines| - 1;
      assert ops[..n] == PostOps(lines[..n], rowNo);
      PostedCredits(b, ctx, lines[..n], rowNo, ops[..n]);
      RunFrame(b, ctx, ops[..n]);
      var r, s := PostLast(b, Run(b, ctx, ops[..n]).value, ctx, lines[n], n, rowNo + 2 * n);
      assert forall k | 0 <= k < n :: lines[..n][k] == lines[k];
    }
  }

  lemma {:induction false} PostLast(b: Books, mid: Books, ctx: Context, line: Line, index: nat, rowNo: nat) returns (r: Row, s: Row)
    requires SameButAlloc(b.balances, mid.balances)
    requires Do(mid, ctx, Post(line, index, rowNo)).Ok?
    ensures Do(mid, ctx, Post(line, index, rowNo)).value.rows == mid.rows + [r, s]
    ensures PairIs(b.balances, ctx, line, rowNo, r, s)
    ensures OnSide(b.balances, line.Credit(), CR)
  {
    var t := TypeOf(b.balances, line.Credit());
    r, s := InvoiceRow(ctx, line, t, rowNo), CreditRow(ctx, line, t, rowNo + 1);
  }

  lemma {:induction false} WriteMoves(balances: Balances, key: Key, delta: int, c: Key)
    requires AddToAllocation(balances, key, delta).Ok? && c in balances
    ensures var after := Write(balances, AddToAllocation(balances, key, delta).value);
      c in after && after[c].alloc == balances[c].alloc + if c == key then delta else 0
  {
  }

  /** One operation moves every other bill's allocation by exactly the rows it appends. */
  lemma {:induction false} DoConserves(b: Books, ctx: Context, op: Op, c: Key)
    requires Do(b, ctx, op).Ok?
    requires c in b.balances && c.id != ctx.bill.id
    ensures var b' := Do(b, ctx, op).value;
      c in b'.balances
      && b'.balances[c].alloc - b.balances[c].alloc == Signed(b'.rows, c) - Signed(b.rows, c)
  {
    match op
    case Undo(target, row, rowNo) =>
      if row.bill.id != ctx.bill.id { WriteMoves(b.balances, row.bill, -row.amount, c); }
    case Post(line, index, rowNo) =>
      PostConserves(b, ctx, line, rowNo, c);
    case Settle(_) =>
      assert b.rows + [] == b.rows;
  }

  lemma {:induction false} PostConserves(b: Books, ctx: Context, line: Line, rowNo: nat, c: Key)
    requires AddToAllocation(b.balances, line.Credit(), line.amount).Ok?
    requires c in b.balances && c.id != ctx.bill.id
    ensures var t := TypeOf(b.balances, line.Credit());
      var rows := b.rows + [InvoiceRow(ctx, line, t, rowNo), CreditRow(ctx, line, t, rowNo + 1)];
      var after := Write(b.balances, AddToAllocation(b.balances, line.Credit(), line.amount).value);
      c in after && after[c].alloc - b.balances[c].alloc == Signed(rows, c) - Signed(b.rows, c)
  {
    var t := TypeOf(b.balances, line.Credit());
    var r, s := InvoiceRow(ctx, line, t, rowNo), CreditRow(ctx, line, t, rowNo + 1);
    WriteMoves(b.balances, line.Credit(), line.amount, c);
    assert b.rows + [r, s] == b.rows + [r] + [s];
  }

  lemma {:induction false} RunConserves(b: Books, ctx: Context, ops: seq<Op>, c: Key)
    requires Run(b, ctx, ops).Ok?
    requires c in b.balances && c.id != ctx.bill.id
    ensures var b' := Run(b, ctx, ops).value;
      c in b'.balances
      && b'.balances[c].alloc - b.balances[c].alloc == Signed(b'.rows, c) - Signed(b.rows, c)
  {
    if ops != [] {
      var n := |ops| - 1;
      RunConserves(b, ctx, ops[..n], c);
      DoConserves(Run(b, ctx, ops[..n]).value, ctx, ops[n], c);
    }
  }

  // ---------------------------------------------------------------- signed sum = standing sum

  /** What stands against a balance, over all bills on the other side. */
  ghost function Standing(rows: seq<Row>, key: Key, n: nat): int
    requires n <= |rows|
  {
    if n == 0 then 0
    else Standing(rows, key, n - 1) + if rows[n - 1].bill == key && LiveAt(rows, n - 1) then rows[n - 1].amount else 0
  }

  lemma {:induction false} StandingAfterUndo(rows: seq<Row>, t: nat, rowNo: nat, key: Key, n: nat)
    requires t < |rows| && LiveAt(rows, t) && n <= |rows|
    ensures Standing(rows + [UndoRow(t, rows[t], rowNo)], key, n)
         == Standing(rows, key, n) - if t < n && rows[t].bill == key then rows[t].amount else 0
  {
    if n > 0 {
      StandingAfterUndo(rows, t, rowNo, key, n - 1);
      AfterUndo(rows, [t], [UndoRow(t, rows[t], rowNo)]);
    }
  }

  lemma {:induction false} StandingAfterPost(rows: seq<Row>, r: Row, key: Key, n: nat)
    requires ReversalsExact(rows) && r.reversalOf.None? && n <= |rows|
    ensures Standing(rows + [r], key, n) == Standing(rows, key, n)
  {
    if n > 0 {
      StandingAfterPost(rows, r, key, n - 1);
      AfterPost(rows, [r]);
    }
  }

  /** A reversal and its target cancel, so the signed sum is the sum of what stands. */
  lemma {:induction false} SignedIsStanding(rows: seq<Row>, key: Key)
    requires ReversalsExact(rows) && ReversedOnce(rows)
    ensures Signed(rows, key) == Standing(rows, key, |rows|)
  {
    if rows != [] {
      var n := |rows| - 1;
      var rest, r := rows[..n], rows[n];
      assert rows == rest + [r];
      forall i | 0 <= i < n ensures ReversalExactAt(rest, i) { assert ReversalExactAt(rows, i); }
      forall i, j | 0 <= i < j < n ensures UndoDiffer(rest, i, j) { assert UndoDiffer(rows, i, j); }
      assert ReversalExactAt(rows, n);
      assert forall i | 0 <= i < n :: UndoDiffer(rows, i, n) && rest[i] == rows[i];
      SignedIsStanding(rest, key);
      match r.reversalOf {
        case None =>
          StandingAfterPost(rest, r, key, n);
          AfterPost(rest, [r]);
        case Some(t) =>
          assert LiveAt(rest, t);
          StandingAfterUndo(rest, t, r.rowNo, key, n);
          AfterUndo(rest, [t], [r]);
      }
    }
  }

  lemma {:induction false} StandingCovers(rows: seq<Row>, key: Key, t: nat, n: nat)
    requires t < n <= |rows| && rows[t].bill == key && LiveAt(rows, t)
    requires forall i | 0 <= i < |rows| && rows[i].reversalOf.None? :: 0 < rows[i].amount
    ensures rows[t].amount <= Standing(rows, key, n)
  {
    StandingNonNegative(rows, key, n - 1);
    if t < n - 1 { StandingCovers(rows, key, t, n - 1); }
  }

  lemma {:induction false} StandingNonNegative(rows: seq<Row>, key: Key, n: nat)
    requires n <= |rows|
    requires forall i | 0 <= i < |rows| && rows[i].reversalOf.None? :: 0 < rows[i].amount
    ensures 0 <= Standing(rows, key, n)
  {
    if n > 0 { StandingNonNegative(rows, key, n - 1); }
  }

  lemma {:induction false} HighestRowNoBounds(rows: seq<Row>, billId: nat)
    ensures forall i | 0 <= i < |rows| && rows[i].bill.id == billId :: rows[i].rowNo <= HighestRowNo(rows, billId)
  {
    if rows != [] {
      HighestRowNoBounds(rows[..|rows| - 1], billId);
      assert forall i | 0 <= i < |rows| - 1 :: rows[i] == rows[..|rows| - 1][i];
    }
  }
}
