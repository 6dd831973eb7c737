/**
 The laws of one sync: what the log keeps, what stands afterwards, what each balance is worth, and
 which refusals can happen at all.
 */
module SetOffLaws {
  import opened Prelude
  import opened SetOff
  import opened SetOffLog

  // ---------------------------------------------------------------- merging the request

  ghost predicate IdsDiffer(lines: seq<Line>, i: nat, j: nat)
    requires i < |lines| && j < |lines|
  {
    lines[i].id != lines[j].id
  }

  ghost predicate DistinctIds(lines: seq<Line>) {
    forall i, j | 0 <= i < j < |lines| :: IdsDiffer(lines, i, j)
  }

  lemma {:induction false} SameIdSameLine(lines: seq<Line>, i: nat, j: nat)
    requires DistinctIds(lines) && i < |lines| && j < |lines| && lines[i].id == lines[j].id
    ensures i == j
  {
    assert i < j ==> IdsDiffer(lines, i, j);
    assert j < i ==> IdsDiffer(lines, j, i);
  }

  /** All that a request asks from one credit, over every line that names it. */
  ghost function Total(lines: seq<Line>, id: nat): int {
    if lines == [] then 0
    else
      var l := lines[|lines| - 1];
      Total(lines[..|lines| - 1], id) + if l.id == id then l.amount else 0
  }

  ghost predicate Acceptable(lines: seq<Line>) {
    && (forall i | 0 <= i < |lines| :: 0 < lines[i].amount)
    && (forall i, j | 0 <= i < j < |lines| && lines[i].id == lines[j].id :: lines[i].year == lines[j].year)
  }

  ghost predicate Names(lines: seq<Line>, id: nat, year: nat) {
    exists i | 0 <= i < |lines| :: lines[i].id == id && lines[i].year == year
  }

  ghost predicate Carries(merged: seq<Line>, lines: seq<Line>) {
    forall k | 0 <= k < |merged| :: 0 < merged[k].amount == Total(lines, merged[k].id)
  }

  ghost predicate NamedIn(merged: seq<Line>, lines: seq<Line>) {
    forall k {:trigger Names(lines, merged[k].id, merged[k].year)} | 0 <= k < |merged| ::
      Names(lines, merged[k].id, merged[k].year)
  }

  /** `merged` has one line per credit named, carrying that credit's whole amount. */
  ghost predicate Merges(merged: seq<Line>, lines: seq<Line>) {
    DistinctIds(merged) && Carries(merged, lines) && NamedIn(merged, lines) && NamedIn(lines, merged)
  }

  lemma {:induction false} TotalOfUnnamed(lines: seq<Line>, id: nat)
    requires forall i | 0 <= i < |lines| :: lines[i].id != id
    ensures Total(lines, id) == 0
  {
    if lines != [] { TotalOfUnnamed(lines[..|lines| - 1], id); }
  }

  lemma {:induction false} NamesGrow(short: seq<Line>, long: seq<Line>, id: nat, year: nat)
    requires Names(short, id, year) && |short| <= |long|
    requires forall i | 0 <= i < |short| :: long[i].id == short[i].id && long[i].year == short[i].year
    ensures Names(long, id, year)
  {
    var i :| 0 <= i < |short| && short[i].id == id && short[i].year == year;
    assert long[i].id == id && long[i].year == year;
  }

  /** A merge of `before` still names what it named once a line is merged into it, and the line too. */
  lemma {:induction false} MergeNames(merged: seq<Line>, before: seq<Line>, line: Line, after: seq<Line>, index: nat)
    requires Merges(merged, before) && MergeLine(merged, line, index) == Ok(after)
    ensures NamedIn(after, before + [line]) && NamedIn(before + [line], after)
  {
    var lines := before + [line];
    assert lines[|before|] == line;
    assert Names(lines, line.id, line.year);
    forall k | 0 <= k < |merged| ensures Names(lines, merged[k].id, merged[k].year) {
      assert Names(before, merged[k].id, merged[k].year);
      NamesGrow(before, lines, merged[k].id, merged[k].year);
    }
    forall i | 0 <= i < |before| ensures Names(after, before[i].id, before[i].year) {
      assert Names(merged, before[i].id, before[i].year);
      NamesGrow(merged, after, before[i].id, before[i].year);
    }
    var found := Find(merged, line.id);
    assert after[if found.None? then |merged| else found.value].id == line.id;
    assert Names(after, line.id, line.year);
  }

  lemma {:induction false} MergeCarries(merged: seq<Line>, before: seq<Line>, line: Line, after: seq<Line>, index: nat)
    requires Merges(merged, before) && MergeLine(merged, line, index) == Ok(after)
    ensures Carries(after, before + [line]) && DistinctIds(after)
  {
    var lines := before + [line];
    assert lines[..|lines| - 1] == before;
    forall i, j | 0 <= i < j < |after| ensures IdsDiffer(after, i, j) {
      if j < |merged| { assert IdsDiffer(merged, i, j); }
    }
    if Find(merged, line.id).None? {
      forall i | 0 <= i < |before| ensures before[i].id != line.id {
        assert Names(merged, before[i].id, before[i].year);
      }
      TotalOfUnnamed(before, line.id);
    } else {
      var p := Find(merged, line.id).value;
      forall k | 0 <= k < |merged| && k != p ensures merged[k].id != line.id {
        if merged[k].id == line.id { SameIdSameLine(merged, k, p); }
      }
    }
  }

  lemma {:induction false} YearsClash(before: seq<Line>, line: Line, year: nat)
    requires Names(before, line.id, year) && year != line.year
    ensures !Acceptable(before + [line])
  {
    var lines := before + [line];
    var i :| 0 <= i < |before| && before[i].id == line.id && before[i].year == year;
    assert lines[i] == before[i] && lines[|before|] == line;
  }

  lemma {:induction false} YearsHold(merged: seq<Line>, before: seq<Line>, line: Line, after: seq<Line>, index: nat)
    requires Merges(merged, before) && MergeLine(merged, line, index) == Ok(after) && Acceptable(before)
    ensures Acceptable(before + [line])
  {
    forall i | 0 <= i < |before| && before[i].id == line.id ensures before[i].year == line.year {
      assert Names(merged, before[i].id, before[i].year);
      var k :| 0 <= k < |merged| && merged[k].id == line.id && merged[k].year == before[i].year;
      var p := Find(merged, line.id).value;
      SameIdSameLine(merged, p, k);
    }
  }

  /** The request is accepted exactly when every amount is positive and no credit has two years. */
  lemma {:induction false} NormalizeMeaning(lines: seq<Line>)
    ensures Normalize(lines).Ok? <==> Acceptable(lines)
    ensures Normalize(lines).Ok? ==> Merges(Normalize(lines).value, lines)
  {
    if lines != [] {
      var n := |lines| - 1;
      var before, line := lines[..n], lines[n];
      assert lines == before + [line];
      NormalizeMeaning(before);
      if Normalize(before).Ok? {
        var merged := Normalize(before).value;
        var r := MergeLine(merged, line, n);
        if r.Ok? {
          MergeNames(merged, before, line, r.value, n);
          MergeCarries(merged, before, line, r.value, n);
          YearsHold(merged, before, line, r.value, n);
        } else if 0 < line.amount {
          var p := Find(merged, line.id).value;
          assert Names(before, merged[p].id, merged[p].year);
          YearsClash(before, line, merged[p].year);
        }
      }
    }
  }

  // ---------------------------------------------------------------- the undo phase

  /** With the books in order, the rows that concern an invoice are its own and their twins. */
  lemma {:induction false} InvoiceConcern(b: Books, ctx: Context, i: nat)
    requires KeysInv(b) && InvoiceOk(b.balances, ctx) && i < |b.rows|
    ensures Concerns(b.rows[i], ctx.bill.id, true)
        <==> (if b.rows[i].side == CR then b.rows[i].bill == ctx.bill else b.rows[i].against == ctx.bill)
  {
    assert RowSides(b.balances, b.rows[i]);
    assert IdIsKey(b.rows[i].bill, ctx.bill) && IdIsKey(b.rows[i].against, ctx.bill);
  }

  /** If there is anything to undo, then a row of the invoice itself stands. */
  lemma {:induction false} UndoMeansLive(b: Books, ctx: Context)
    requires LogInv(b.rows) && KeysInv(b) && InvoiceOk(b.balances, ctx)
    ensures LiveIndices(b.rows, ctx.bill.id, true, |b.rows|) == [] || LiveLines(b.rows, ctx.bill.id) != []
  {
    LiveIndicesExact(b.rows, ctx.bill.id, true, |b.rows|);
    LiveIndicesExact(b.rows, ctx.bill.id, false, |b.rows|);
    var at := LiveIndices(b.rows, ctx.bill.id, true, |b.rows|);
    if at != [] {
      var i := at[0];
      assert i in at;
      InvoiceConcern(b, ctx, i);
      assert b.rows[i].reversalOf.None?;
      if b.rows[i].side == DR {
        TwinBefore(b.rows, i);
        assert TwinsAgreeAt(b.rows, i - 1);
        assert LiveAt(b.rows, i - 1);
        assert (i - 1) in LiveIndices(b.rows, ctx.bill.id, false, |b.rows|);
      } else {
        assert i in LiveIndices(b.rows, ctx.bill.id, false, |b.rows|);
      }
    }
  }

  /** The undo rows of an invoice, and the positions they undo. */
  ghost predicate Undoing(b: Books, ctx: Context, at: seq<nat>, undone: seq<Row>) {
    && |undone| == |at|
    && (forall k | 0 <= k < |at| ::
          && at[k] < |b.rows|
          && LiveAt(b.rows, at[k]) && Concerns(b.rows[at[k]], ctx.bill.id, true)
          && undone[k] == UndoRow(at[k], b.rows[at[k]], HighestRowNo(b.rows, ctx.bill.id) + 1 + k))
    && (forall k, l | 0 <= k < l < |at| :: at[k] < at[l])
    && (forall i | 0 <= i < |b.rows| && LiveAt(b.rows, i) && Concerns(b.rows[i], ctx.bill.id, true) :: i in at)
  }

  lemma {:induction false} UndoFacts(b: Books, ctx: Context, ops: seq<Op>) returns (at: seq<nat>, undone: seq<Row>)
    requires ops == UndoPhase(b.rows, ctx.bill.id)
    requires LiveIndices(b.rows, ctx.bill.id, true, |b.rows|) == [] || LiveLines(b.rows, ctx.bill.id) != []
    ensures undone == UndoRows(ops) && Undoing(b, ctx, at, undone)
    ensures at == LiveIndices(b.rows, ctx.bill.id, true, |b.rows|)
  {
    at := LiveIndices(b.rows, ctx.bill.id, true, |b.rows|);
    undone := UndoRows(ops);
    UndoRowsAre(b.rows, at, HighestRowNo(b.rows, ctx.bill.id) + 1, ops);
    LiveIndicesExact(b.rows, ctx.bill.id, true, |b.rows|);
    AtIsLive(b.rows, ctx.bill.id, at);
  }

  lemma {:induction false} AtIsLive(rows: seq<Row>, billId: nat, at: seq<nat>)
    requires forall i :: i in at <==> 0 <= i < |rows| && Concerns(rows[i], billId, true) && LiveAt(rows, i)
    ensures forall k | 0 <= k < |at| :: at[k] < |rows| && LiveAt(rows, at[k]) && Concerns(rows[at[k]], billId, true)
  {
    forall k | 0 <= k < |at| ensures at[k] < |rows| && LiveAt(rows, at[k]) && Concerns(rows[at[k]], billId, true) {
      assert at[k] in at;
    }
  }

  lemma {:induction false} UndoRowsAre(rows: seq<Row>, at: seq<nat>, no: nat, ops: seq<Op>)
    requires forall k | 0 <= k < |at| :: at[k] < |rows|
    requires ops == UndoOps(rows, at, no)
    ensures |UndoRows(ops)| == |at|
    ensures forall k | 0 <= k < |at| :: UndoRows(ops)[k] == UndoRow(at[k], rows[at[k]], no + k)
  {
  }

  /** After the undo phase nothing that concerns the invoice stands, and nothing else has moved. */
  lemma {:induction false} UndoLeaves(b: Books, ctx: Context, at: seq<nat>, undone: seq<Row>)
    requires Undoing(b, ctx, at, undone)
    ensures var rows := b.rows + undone;
      && (forall i | 0 <= i < |b.rows| ::
            LiveAt(rows, i) <==> LiveAt(b.rows, i) && !Concerns(b.rows[i], ctx.bill.id, true))
      && (forall i | |b.rows| <= i < |rows| :: !LiveAt(rows, i) && Concerns(rows[i], ctx.bill.id, true))
  {
    AfterUndo(b.rows, at, undone);
  }

  lemma {:induction false} UndoTwinsAgree(b: Books, ctx: Context, at: seq<nat>, undone: seq<Row>)
    requires Paired(b.rows) && TwinsAgree(b.rows) && KeysInv(b) && InvoiceOk(b.balances, ctx)
    requires Undoing(b, ctx, at, undone)
    ensures TwinsAgree(b.rows + undone) && Paired(b.rows + undone)
  {
    UndoLeaves(b, ctx, at, undone);
    var rows := b.rows + undone;
    forall i | 0 <= i < |rows| ensures PairedAt(rows, i) {
      if i < |b.rows| { assert PairedAt(b.rows, i); }
    }
    forall i | 0 <= i < |rows| - 1 ensures TwinsAgreeAt(rows, i) {
      if rows[i].reversalOf.None? && rows[i].side == CR {
        assert i < |b.rows| && rows[i] == b.rows[i];
        TwinAfter(b.rows, i);
        assert TwinsAgreeAt(b.rows, i) && rows[i + 1] == b.rows[i + 1];
        InvoiceConcern(b, ctx, i);
        InvoiceConcern(b, ctx, i + 1);
      }
    }
  }

  lemma {:induction false} UndoOrder(b: Books, ctx: Context, at: seq<nat>, undone: seq<Row>)
    requires OnePerCredit(b.rows) && RowNosAscend(b.rows) && KeysInv(b) && InvoiceOk(b.balances, ctx)
    requires Undoing(b, ctx, at, undone)
    ensures var rows := b.rows + undone;
      OnePerCredit(rows) && RowNosAscend(rows) && KeysInv(b.(rows := rows))
  {
    UndoLeaves(b, ctx, at, undone);
    HighestRowNoBounds(b.rows, ctx.bill.id);
    var rows := b.rows + undone;
    forall k | 0 <= k < |at|
      ensures RowSides(b.balances, undone[k]) && (undone[k].side == CR ==> undone[k].bill == ctx.bill)
    {
      assert RowSides(b.balances, b.rows[at[k]]);
      InvoiceConcern(b, ctx, at[k]);
    }
    forall i, j | 0 <= i < j < |rows| ensures CreditsDiffer(rows, i, j) && RowNosInOrder(rows, i, j) {
      if j < |b.rows| { assert CreditsDiffer(b.rows, i, j) && RowNosInOrder(b.rows, i, j); }
    }
    forall i | 0 <= i < |rows| ensures RowSides(b.balances, rows[i]) {
      if i < |b.rows| { assert RowSides(b.balances, b.rows[i]); }
    }
  }

  /** The log after the undo phase is in order. */
  lemma {:induction false} UndoKeepsLog(b: Books, ctx: Context, at: seq<nat>, undone: seq<Row>)
    requires LogInv(b.rows) && KeysInv(b) && InvoiceOk(b.balances, ctx)
    requires Undoing(b, ctx, at, undone)
    ensures var rows := b.rows + undone;
      LogInv(rows) && KeysInv(b.(rows := rows))
  {
    UndoneOnce(b.rows, at, undone);
    UndoTwinsAgree(b, ctx, at, undone);
    UndoOrder(b, ctx, at, undone);
  }

  lemma {:induction false} UndoneOnce(rows: seq<Row>, at: seq<nat>, undone: seq<Row>)
    requires ReversalsExact(rows) && ReversedOnce(rows)
    requires |undone| == |at|
    requires forall k | 0 <= k < |at| ::
      at[k] < |rows| && LiveAt(rows, at[k]) && undone[k] == UndoRow(at[k], rows[at[k]], undone[k].rowNo)
    requires forall k, l | 0 <= k < l < |at| :: at[k] < at[l]
    ensures ReversalsExact(rows + undone) && ReversedOnce(rows + undone)
  {
    var all := rows + undone;
    forall i | 0 <= i < |all| ensures ReversalExactAt(all, i) {
      if i < |rows| { assert ReversalExactAt(rows, i); }
    }
    forall i, j | 0 <= i < j < |all| ensures UndoDiffer(all, i, j) {
      if j < |rows| { assert UndoDiffer(rows, i, j); }
    }
  }

  // ---------------------------------------------------------------- the posting phase

  /** Position j of the posted rows: the invoice row of line j / 2, or its twin. */
  ghost predicate PostedAt(balances: Balances, ctx: Context, lines: seq<Line>, no: nat, j: nat, r: Row) {
    && j < 2 * |lines|
    && var l := lines[j / 2]; var t := TypeOf(balances, l.Credit());
       r == if j % 2 == 0 then InvoiceRow(ctx, l, t, no + j) else CreditRow(ctx, l, t, no + j)
  }

  lemma {:induction false} PostedIs(balances: Balances, ctx: Context, lines: seq<Line>, no: nat, posted: seq<Row>, j: nat)
    requires PostedRows(balances, ctx, lines, no, posted) && j < |posted|
    ensures PostedAt(balances, ctx, lines, no, j, posted[j])
  {
    var n := |lines| - 1;
    if j < 2 * n {
      PostedIs(balances, ctx, lines[..n], no, posted[..2 * n], j);
    } else {
      assert j / 2 == n;
    }
  }

  lemma {:induction false} PostedPlain(balances: Balances, ctx: Context, lines: seq<Line>, no: nat, posted: seq<Row>)
    requires PostedRows(balances, ctx, lines, no, posted)
    ensures forall j | 0 <= j < |posted| :: posted[j].reversalOf.None? && Concerns(posted[j], ctx.bill.id, true)
  {
    forall j | 0 <= j < |posted| ensures posted[j].reversalOf.None? && Concerns(posted[j], ctx.bill.id, true) {
      PostedIs(balances, ctx, lines, no, posted, j);
    }
  }

  lemma {:induction false} PostPaired(rows: seq<Row>, balances: Balances, ctx: Context, lines: seq<Line>, no: nat, posted: seq<Row>)
    requires PostedRows(balances, ctx, lines, no, posted)
    requires Paired(rows) && forall k | 0 <= k < |lines| :: 0 < lines[k].amount
    ensures Paired(rows + posted)
  {
    var all := rows + posted;
    forall i | 0 <= i < |all| ensures PairedAt(all, i) {
      if |rows| <= i {
        var j := i - |rows|;
        PostedIs(balances, ctx, lines, no, posted, j);
        if j % 2 == 0 { PostedIs(balances, ctx, lines, no, posted, j + 1); }
        else { PostedIs(balances, ctx, lines, no, posted, j - 1); }
      } else {
        assert PairedAt(rows, i) && all[i] == rows[i];
      }
    }
  }

  lemma {:induction false} PostOrder(b: Books, ctx: Context, lines: seq<Line>, posted: seq<Row>)
    requires PostedRows(b.balances, ctx, lines, HighestRowNo(b.rows, ctx.bill.id) + 1, posted)
    requires RowNosAscend(b.rows) && KeysInv(b) && InvoiceOk(b.balances, ctx)
    requires forall k | 0 <= k < |lines| :: OnSide(b.balances, lines[k].Credit(), CR)
    ensures var rows := b.rows + posted;
      RowNosAscend(rows) && KeysInv(b.(rows := rows))
  {
    var no := HighestRowNo(b.rows, ctx.bill.id) + 1;
    var rows := b.rows + posted;
    HighestRowNoBounds(b.rows, ctx.bill.id);
    forall i, j | 0 <= i < j < |rows| ensures RowNosInOrder(rows, i, j) {
      if j < |b.rows| {
        assert RowNosInOrder(b.rows, i, j);
      } else {
        PostedIs(b.balances, ctx, lines, no, posted, j - |b.rows|);
        if |b.rows| <= i { PostedIs(b.balances, ctx, lines, no, posted, i - |b.rows|); }
      }
    }
    forall i | 0 <= i < |rows| ensures RowSides(b.balances, rows[i]) {
      if |b.rows| <= i { PostedIs(b.balances, ctx, lines, no, posted, i - |b.rows|); }
      else { assert RowSides(b.balances, b.rows[i]); }
    }
  }

  lemma {:induction false} PostOnePerCredit(b: Books, ctx: Context, lines: seq<Line>, no: nat, posted: seq<Row>)
    requires PostedRows(b.balances, ctx, lines, no, posted)
    requires ReversalsExact(b.rows) && OnePerCredit(b.rows)
    requires forall i | 0 <= i < |b.rows| && LiveAt(b.rows, i) :: !Concerns(b.rows[i], ctx.bill.id, true)
    requires DistinctIds(lines)
    ensures OnePerCredit(b.rows + posted)
  {
    var rows := b.rows + posted;
    var n := |b.rows|;
    PostedPlain(b.balances, ctx, lines, no, posted);
    AfterPost(b.rows, posted);
    forall i, j | 0 <= i < j < |rows| ensures CreditsDiffer(rows, i, j) {
      if j < n {
        assert CreditsDiffer(b.rows, i, j) && rows[i] == b.rows[i] && rows[j] == b.rows[j];
      } else {
        PostedIs(b.balances, ctx, lines, no, posted, j - n);
        if n <= i {
          PostedIs(b.balances, ctx, lines, no, posted, i - n);
          assert rows[i].side == CR && rows[j].side == CR ==>
            (i - n) / 2 < (j - n) / 2 && IdsDiffer(lines, (i - n) / 2, (j - n) / 2);
        } else {
          assert LiveAt(rows, i) ==> !Concerns(b.rows[i], ctx.bill.id, true);
        }
      }
    }
  }

  lemma {:induction false} NoneLive(rows: seq<Row>, n: nat, billId: nat)
    requires n <= |rows|
    requires forall i | 0 <= i < n :: !(LiveAt(rows, i) && rows[i].bill.id == billId)
    ensures LiveIndices(rows, billId, false, n) == []
  {
    if n > 0 { NoneLive(rows, n - 1, billId); }
  }

  /** In log order, what stands for the invoice is exactly the lines posted. */
  lemma {:induction false} PostedLive(rows: seq<Row>, n: nat, billId: nat, k: nat)
    requires n + 2 * k <= |rows|
    requires forall i | 0 <= i < n :: !(LiveAt(rows, i) && rows[i].bill.id == billId)
    requires forall j | 0 <= j < k ::
      && rows[n + 2 * j].bill.id == billId && LiveAt(rows, n + 2 * j)
      && rows[n + 2 * j + 1].bill.id != billId
    ensures LiveIndices(rows, billId, false, n + 2 * k) == seq(k, j => n + 2 * j)
  {
    if k == 0 {
      NoneLive(rows, n, billId);
    } else {
      PostedLive(rows, n, billId, k - 1);
      var p := n + 2 * (k - 1);
      assert LiveIndices(rows, billId, false, p + 2) == LiveIndices(rows, billId, false, p + 1);
      assert seq(k, j => n + 2 * j) == seq(k - 1, j => n + 2 * j) + [p];
    }
  }

  lemma {:induction false} PostedBills(b: Books, ctx: Context, lines: seq<Line>, no: nat, posted: seq<Row>, j: nat)
    requires PostedRows(b.balances, ctx, lines, no, posted) && j < |lines|
    requires KeysInv(b) && InvoiceOk(b.balances, ctx) && OnSide(b.balances, lines[j].Credit(), CR)
    ensures 2 * j + 1 < |posted|
    ensures posted[2 * j].bill.id == ctx.bill.id && posted[2 * j + 1].bill.id != ctx.bill.id
  {
    PostedIs(b.balances, ctx, lines, no, posted, 2 * j);
    PostedIs(b.balances, ctx, lines, no, posted, 2 * j + 1);
    assert IdIsKey(lines[j].Credit(), ctx.bill);
  }

  lemma {:induction false} PostedStand(b: Books, ctx: Context, lines: seq<Line>, no: nat, posted: seq<Row>)
    requires PostedRows(b.balances, ctx, lines, no, posted)
    requires ReversalsExact(b.rows) && KeysInv(b) && InvoiceOk(b.balances, ctx)
    requires forall i | 0 <= i < |b.rows| && LiveAt(b.rows, i) :: !Concerns(b.rows[i], ctx.bill.id, true)
    requires forall k | 0 <= k < |lines| :: OnSide(b.balances, lines[k].Credit(), CR)
    ensures LiveIndices(b.rows + posted, ctx.bill.id, false, |b.rows| + 2 * |lines|)
         == seq(|lines|, j => |b.rows| + 2 * j)
  {
    var rows := b.rows + posted;
    PostedPlain(b.balances, ctx, lines, no, posted);
    AfterPost(b.rows, posted);
    forall i | 0 <= i < |b.rows| ensures !(LiveAt(rows, i) && rows[i].bill.id == ctx.bill.id) {
      assert rows[i] == b.rows[i];
    }
    forall j | 0 <= j < |lines|
      ensures rows[|b.rows| + 2 * j].bill.id == ctx.bill.id && LiveAt(rows, |b.rows| + 2 * j)
      ensures rows[|b.rows| + 2 * j + 1].bill.id != ctx.bill.id
    {
      PostedBills(b, ctx, lines, no, posted, j);
      assert rows[|b.rows| + 2 * j] == posted[2 * j] && rows[|b.rows| + 2 * j + 1] == posted[2 * j + 1];
    }
    PostedLive(rows, |b.rows|, ctx.bill.id, |lines|);
  }

  lemma {:induction false} PostedLines(rows: seq<Row>, n: nat, billId: nat, lines: seq<Line>)
    requires |rows| == n + 2 * |lines|
    requires LiveIndices(rows, billId, false, |rows|) == seq(|lines|, j => n + 2 * j)
    requires forall j | 0 <= j < |lines| :: AsLine(rows[n + 2 * j]) == lines[j]
    ensures LiveLines(rows, billId) == lines
  {
    var at := LiveIndices(rows, billId, false, |rows|);
    assert forall j | 0 <= j < |lines| :: at[j] == n + 2 * j;
  }

  lemma {:induction false} PostLiveLines(b: Books, ctx: Context, lines: seq<Line>, no: nat, posted: seq<Row>)
    requires PostedRows(b.balances, ctx, lines, no, posted)
    requires ReversalsExact(b.rows) && KeysInv(b) && InvoiceOk(b.balances, ctx)
    requires forall i | 0 <= i < |b.rows| && LiveAt(b.rows, i) :: !Concerns(b.rows[i], ctx.bill.id, true)
    requires forall k | 0 <= k < |lines| :: OnSide(b.balances, lines[k].Credit(), CR)
    ensures LiveLines(b.rows + posted, ctx.bill.id) == lines
  {
    PostedStand(b, ctx, lines, no, posted);
    forall j | 0 <= j < |lines| ensures AsLine((b.rows + posted)[|b.rows| + 2 * j]) == lines[j] {
      PostedIs(b.balances, ctx, lines, no, posted, 2 * j);
    }
    PostedLines(b.rows + posted, |b.rows|, ctx.bill.id, lines);
  }

  /** Fresh pairs, one per credit, on a log where the invoice has nothing standing. */
  lemma {:induction false} PostKeepsLog(b: Books, ctx: Context, lines: seq<Line>, posted: seq<Row>)
    requires PostedRows(b.balances, ctx, lines, HighestRowNo(b.rows, ctx.bill.id) + 1, posted)
    requires LogInv(b.rows) && KeysInv(b) && InvoiceOk(b.balances, ctx)
    requires forall i | 0 <= i < |b.rows| && LiveAt(b.rows, i) :: !Concerns(b.rows[i], ctx.bill.id, true)
    requires DistinctIds(lines)
    requires forall k | 0 <= k < |lines| :: 0 < lines[k].amount && OnSide(b.balances, lines[k].Credit(), CR)
    ensures var rows := b.rows + posted;
      && LogInv(rows)
      && KeysInv(b.(rows := rows))
  {
    var no := HighestRowNo(b.rows, ctx.bill.id) + 1;
    PostReversals(b, ctx, lines, no, posted);
    PostPaired(b.rows, b.balances, ctx, lines, no, posted);
    PostOnePerCredit(b, ctx, lines, no, posted);
    PostOrder(b, ctx, lines, posted);
  }

  lemma {:induction false} PostReversals(b: Books, ctx: Context, lines: seq<Line>, no: nat, posted: seq<Row>)
    requires PostedRows(b.balances, ctx, lines, no, posted)
    requires ReversalsExact(b.rows) && ReversedOnce(b.rows) && TwinsAgree(b.rows) && Paired(b.rows)
    ensures var rows := b.rows + posted;
      && ReversalsExact(rows) && ReversedOnce(rows) && TwinsAgree(rows)
      && (forall i | 0 <= i < |b.rows| :: LiveAt(rows, i) <==> LiveAt(b.rows, i))
      && (forall i | |b.rows| <= i < |rows| :: LiveAt(rows, i) && Concerns(rows[i], ctx.bill.id, true))
  {
    var rows := b.rows + posted;
    PostedPlain(b.balances, ctx, lines, no, posted);
    AfterPost(b.rows, posted);
    forall i | 0 <= i < |rows| ensures ReversalExactAt(rows, i) {
      if i < |b.rows| { assert ReversalExactAt(b.rows, i); }
    }
    forall i, j | 0 <= i < j < |rows| ensures UndoDiffer(rows, i, j) {
      if j < |b.rows| { assert UndoDiffer(b.rows, i, j); }
    }
    forall i | 0 <= i < |rows| - 1 ensures TwinsAgreeAt(rows, i) {
      if i < |b.rows| && rows[i].reversalOf.None? && rows[i].side == CR {
        assert rows[i] == b.rows[i];
        TwinAfter(b.rows, i);
        assert TwinsAgreeAt(b.rows, i) && rows[i + 1] == b.rows[i + 1];
      }
    }
  }
}
