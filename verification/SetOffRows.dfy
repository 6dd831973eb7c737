/**
 What one sync (src/common/posting/bill-adjustment.helper.ts) writes, row by row and field by field; which action
 it reports; and which error it stops at.  All of it is stated by the fields of the rows and balances alone.
 */
module SetOffRows {
  import opened Prelude
  import opened SetOff
  import opened SetOffLog
  import opened SetOffLaws
  import opened SetOffSync
  import opened SetOffTheorems
  import opened SetOffSuccess

  // ---------------------------------------------------------------- the rows

  /** One past the highest number among the rows of a bill, 1 when it has none. */
  ghost predicate NextNumber(rows: seq<Row>, billId: nat, no: nat) {
    && (forall i | 0 <= i < |rows| && rows[i].bill.id == billId :: rows[i].rowNo < no)
    && (no == 1 || exists i :: 0 <= i < |rows| && rows[i].bill.id == billId && rows[i].rowNo + 1 == no)
  }

  lemma {:induction false} HighestIsNext(rows: seq<Row>, billId: nat)
    ensures NextNumber(rows, billId, HighestRowNo(rows, billId) + 1)
  {
    HighestRowNoBounds(rows, billId);
    HighestIsSome(rows, billId);
  }

  lemma {:induction false} HighestIsSome(rows: seq<Row>, billId: nat)
    ensures var n := HighestRowNo(rows, billId);
      n == 0 || exists i :: 0 <= i < |rows| && rows[i].bill.id == billId && rows[i].rowNo == n
  {
    if rows != [] {
      var last := |rows| - 1;
      HighestIsSome(rows[..last], billId);
      var n := HighestRowNo(rows, billId);
      if n != 0 && n == HighestRowNo(rows[..last], billId) {
        var i :| 0 <= i < last && rows[..last][i].bill.id == billId && rows[..last][i].rowNo == n;
        assert rows[i].bill.id == billId && rows[i].rowNo == n;
      }
    }
  }

  /** A row of the invoice or of a credit against it that is no reversal and that no row reverses. */
  ghost predicate StandsFor(rows: seq<Row>, billId: nat, i: nat) {
    && i < |rows| && (rows[i].bill.id == billId || rows[i].against.id == billId) && rows[i].reversalOf == None
    && forall j | 0 <= j < |rows| :: rows[j].reversalOf != Some(i)
  }

  /** The rows that undo: everything as it was, but the amount negated, the row undone named, and a number of their own. */
  ghost predicate UndoesRow(was: Row, at: nat, no: nat, r: Row) {
    r == Row(was.bill, was.against, no, was.adjType, was.side, -was.amount, Some(at))
  }

  ghost predicate AdjustsAs(kind: AdjType, credit: BillType) {
    (kind == AdvanceAdjust <==> credit == Advance) && (kind == NoteAdjust <==> credit == SalesReturn)
  }

  /** The two rows of a line: the invoice moved against the credit, and the credit against the invoice. */
  ghost predicate PairFor(balances: Balances, ctx: Context, line: Line, no: nat, r: Row, s: Row) {
    var credit := Key(line.id, line.year);
    && credit in balances && AdjustsAs(r.adjType, balances[credit].billType)
    && r == Row(ctx.bill, credit, no, r.adjType, CR, line.amount, None)
    && s == Row(credit, ctx.bill, no + 1, r.adjType, DR, line.amount, None)
  }

  ghost predicate UndoesAll(before: seq<Row>, at: seq<nat>, first: nat, rows: seq<Row>) {
    && |rows| >= |before| + |at|
    && forall k | 0 <= k < |at| :: at[k] < |before| && UndoesRow(before[at[k]], at[k], first + k, rows[|before| + k])
  }

  ghost predicate PairsAll(balances: Balances, ctx: Context, lines: seq<Line>, no: nat, m: nat, rows: seq<Row>) {
    && |rows| == m + 2 * |lines|
    && forall k | 0 <= k < |lines| :: PairFor(balances, ctx, lines[k], no + 2 * k, rows[m + 2 * k], rows[m + 2 * k + 1])
  }

  /** First the standing rows undone in log order, then the lines of the request in its order. */
  ghost predicate Writes(b: Books, ctx: Context, lines: seq<Line>, at: seq<nat>, first: nat, no: nat, rows: seq<Row>) {
    && b.rows <= rows && UndoesAll(b.rows, at, first, rows)
    && PairsAll(b.balances, ctx, lines, no, |b.rows| + |at|, rows)
    && NextNumber(b.rows, ctx.bill.id, first) && NextNumber(rows[..|b.rows| + |at|], ctx.bill.id, no)
  }

  /** An eligible credit is an advance or a sales return. */
  lemma {:induction false} EligibleMeaning(balances: Balances, ctx: Context, c: Key)
    ensures Eligible(balances, ctx, c) <==>
      && c in balances && balances[c].company == ctx.company && balances[c].open && balances[c].party == ctx.party
      && balances[c].side == CR && (balances[c].billType == Advance || balances[c].billType == SalesReturn)
  {
  }

  lemma {:induction false} PairOf(b: Books, ctx: Context, lines: seq<Line>, no: nat, posted: seq<Row>, k: nat)
    requires PostedRows(b.balances, ctx, lines, no, posted) && k < |lines| && Eligible(b.balances, ctx, lines[k].Credit())
    ensures 2 * k + 1 < |posted| && PairFor(b.balances, ctx, lines[k], no + 2 * k, posted[2 * k], posted[2 * k + 1])
  {
    PostedIs(b.balances, ctx, lines, no, posted, 2 * k);
    PostedIs(b.balances, ctx, lines, no, posted, 2 * k + 1);
    EligibleMeaning(b.balances, ctx, lines[k].Credit());
  }

  lemma {:induction false} PairsOf(b: Books, ctx: Context, lines: seq<Line>, no: nat, before: seq<Row>, posted: seq<Row>)
    requires PostedRows(b.balances, ctx, lines, no, posted) && AllCover(b, ctx, lines)
    ensures PairsAll(b.balances, ctx, lines, no, |before|, before + posted)
  {
    var rows, m := before + posted, |before|;
    forall k | 0 <= k < |lines| ensures PairFor(b.balances, ctx, lines[k], no + 2 * k, rows[m + 2 * k], rows[m + 2 * k + 1]) {
      assert Covers(b, ctx, lines[k]);
      PairOf(b, ctx, lines, no, posted, k);
    }
  }

  /** What is undone is what stands. */
  ghost predicate AllThatStands(rows: seq<Row>, billId: nat, at: seq<nat>) {
    (forall i: nat :: i in at <==> StandsFor(rows, billId, i)) && Ascends(at)
  }

  lemma {:induction false} UndoingStands(b: Books, ctx: Context, at: seq<nat>, undone: seq<Row>)
    requires Undoing(b, ctx, at, undone)
    ensures AllThatStands(b.rows, ctx.bill.id, at)
  {
    forall i: nat ensures i in at <==> StandsFor(b.rows, ctx.bill.id, i) {
      assert i < |b.rows| ==> (StandsFor(b.rows, ctx.bill.id, i) <==> LiveAt(b.rows, i) && Concerns(b.rows[i], ctx.bill.id, true));
    }
  }

  lemma {:induction false} UndoesOf(b: Books, ctx: Context, at: seq<nat>, undone: seq<Row>, first: nat, more: seq<Row>)
    requires Undoing(b, ctx, at, undone) && first == HighestRowNo(b.rows, ctx.bill.id) + 1
    ensures |undone| == |at| && UndoesAll(b.rows, at, first, b.rows + undone + more)
    ensures AllThatStands(b.rows, ctx.bill.id, at) && NextNumber(b.rows, ctx.bill.id, first)
  {
    HighestIsNext(b.rows, ctx.bill.id);
    UndoingStands(b, ctx, at, undone);
  }

  lemma {:induction false} WritesOf(
    b: Books, ctx: Context, lines: seq<Line>, at: seq<nat>, first: nat, no: nat, undone: seq<Row>, posted: seq<Row>)
    requires |undone| == |at| && UndoesAll(b.rows, at, first, b.rows + undone + posted)
    requires PairsAll(b.balances, ctx, lines, no, |b.rows + undone|, b.rows + undone + posted)
    requires NextNumber(b.rows, ctx.bill.id, first) && NextNumber(b.rows + undone, ctx.bill.id, no)
    ensures Writes(b, ctx, lines, at, first, no, b.rows + undone + posted)
  {
    assert (b.rows + undone + posted)[..|b.rows| + |at|] == b.rows + undone;
  }

  lemma {:induction false} PostingPairs(b: Books, ctx: Context, lines: seq<Line>, undone: seq<Row>, posted: seq<Row>, no: nat, b': Books)
    requires Posting(b, ctx, lines, undone, posted, b') && AllCover(b, ctx, lines)
    requires no == HighestRowNo(b.rows + undone, ctx.bill.id) + 1
    ensures b'.rows == b.rows + undone + posted && NextNumber(b.rows + undone, ctx.bill.id, no)
    ensures PairsAll(b.balances, ctx, lines, no, |b.rows + undone|, b.rows + undone + posted)
  {
    HighestIsNext(b.rows + undone, ctx.bill.id);
    PairsOf(b, ctx, lines, no, b.rows + undone, posted);
  }

  lemma {:induction false} ReplacementWrites(b: Books, ctx: Context, lines: seq<Line>, at: seq<nat>, undone: seq<Row>,
                                             posted: seq<Row>, b': Books, first: nat, no: nat)
    requires Replacement(b, ctx, lines, at, undone, posted, b') && AllCover(b, ctx, lines)
    requires first == HighestRowNo(b.rows, ctx.bill.id) + 1 && no == HighestRowNo(b.rows + undone, ctx.bill.id) + 1
    ensures Writes(b, ctx, lines, at, first, no, b'.rows) && AllThatStands(b.rows, ctx.bill.id, at)
  {
    UndoesOf(b, ctx, at, undone, first, posted);
    PostingPairs(b, ctx, lines, undone, posted, no, b');
    WritesOf(b, ctx, lines, at, first, no, undone, posted);
  }

  lemma {:induction false} ChangeWrites(b: Books, ctx: Context, request: Option<seq<Line>>, b': Books)
    returns (at: seq<nat>, first: nat, no: nat)
    requires BooksInv(b) && InvoiceOk(b.balances, ctx) && Sync(b, ctx, request) == Ok(b') && Changes(b.rows, ctx, request)
    ensures Writes(b, ctx, Requested(request), at, first, no, b'.rows) && AllThatStands(b.rows, ctx.bill.id, at)
  {
    UndoMeansLive(b, ctx);
    SyncSucceedsIff(b, ctx, request);
    var undone, posted;
    at, undone, posted := ChangeShape(b, ctx, request, b');
    first, no := HighestRowNo(b.rows, ctx.bill.id) + 1, HighestRowNo(b.rows + undone, ctx.bill.id) + 1;
    ReplacementWrites(b, ctx, Requested(request), at, undone, posted, b', first, no);
  }

  /** Exactly what a sync writes: nothing unless the request changes something, and then this. */
  lemma {:induction false} WrittenRows(b: Books, ctx: Context, request: Option<seq<Line>>, b': Books)
    returns (at: seq<nat>, first: nat, no: nat)
    requires BooksInv(b) && InvoiceOk(b.balances, ctx) && Sync(b, ctx, request) == Ok(b')
    ensures if Changes(b.rows, ctx, request)
            then Writes(b, ctx, Requested(request), at, first, no, b'.rows) && AllThatStands(b.rows, ctx.bill.id, at)
            else b'.rows == b.rows
  {
    at, first, no := [], 1, 1;
    if Changes(b.rows, ctx, request) {
      at, first, no := ChangeWrites(b, ctx, request, b');
    } else {
      KeepBooks(b, ctx, request, b');
    }
  }

  ghost predicate AdjustsCredit(balances: Balances, r: Row) {
    var credit := if r.side == CR then r.against else r.bill;
    && credit in balances && (balances[credit].billType == Advance || balances[credit].billType == SalesReturn)
    && (r.adjType == AdvanceAdjust <==> balances[credit].billType == Advance)
    && (r.adjType == NoteAdjust <==> balances[credit].billType == SalesReturn)
  }

  lemma {:induction false} PairAdjusts(balances: Balances, ctx: Context, line: Line, no: nat, r: Row, s: Row)
    requires PairFor(balances, ctx, line, no, r, s)
    ensures AdjustsCredit(balances, r) && AdjustsCredit(balances, s)
  {
  }

  lemma {:induction false} PairsAdjust(balances: Balances, ctx: Context, lines: seq<Line>, no: nat, m: nat, rows: seq<Row>, i: nat)
    requires PairsAll(balances, ctx, lines, no, m, rows) && m <= i < |rows|
    ensures AdjustsCredit(balances, rows[i])
  {
    var k := (i - m) / 2;
    assert i == m + 2 * k || i == m + 2 * k + 1;
    PairAdjusts(balances, ctx, lines[k], no + 2 * k, rows[m + 2 * k], rows[m + 2 * k + 1]);
  }

  lemma {:induction false} UndoneIsReversal(before: seq<Row>, at: seq<nat>, first: nat, rows: seq<Row>, i: nat)
    requires UndoesAll(before, at, first, rows) && |before| <= i < |before| + |at|
    ensures rows[i].reversalOf.Some?
  {
    var k := i - |before|;
    assert UndoesRow(before[at[k]], at[k], first + k, rows[|before| + k]);
  }

  lemma {:induction false} WrittenAdjust(
    b: Books, ctx: Context, lines: seq<Line>, at: seq<nat>, first: nat, no: nat, rows: seq<Row>, i: nat)
    requires Writes(b, ctx, lines, at, first, no, rows) && |b.rows| <= i < |rows| && rows[i].reversalOf == None
    ensures AdjustsCredit(b.balances, rows[i])
  {
    if i < |b.rows| + |at| {
      UndoneIsReversal(b.rows, at, first, rows, i);
    } else {
      PairsAdjust(b.balances, ctx, lines, no, |b.rows| + |at|, rows, i);
    }
  }

  /** Every new pair adjusts an advance as an advance, and a sales return as a note. */
  lemma {:induction false} NewPairsAdjust(b: Books, ctx: Context, request: Option<seq<Line>>, b': Books, i: nat)
    requires BooksInv(b) && InvoiceOk(b.balances, ctx) && Sync(b, ctx, request) == Ok(b')
    requires |b.rows| <= i < |b'.rows| && b'.rows[i].reversalOf == None
    ensures AdjustsCredit(b.balances, b'.rows[i])
  {
    var at, first, no := WrittenRows(b, ctx, request, b');
    if Changes(b.rows, ctx, request) { WrittenAdjust(b, ctx, Requested(request), at, first, no, b'.rows, i); }
  }

  /** Where each credit of the merged request is first named. */
  ghost predicate NamedAt(lines: seq<Line>, merged: seq<Line>, at: seq<nat>) {
    && |at| == |merged| && Ascends(at)
    && forall k | 0 <= k < |at| :: at[k] < |lines| && lines[at[k]].id == merged[k].id && lines[at[k]].year == merged[k].year
  }

  lemma {:induction false} MergeNamed(before: seq<Line>, line: Line, merged: seq<Line>, after: seq<Line>, at: seq<nat>)
    requires NamedAt(before, merged, at) && MergeLine(merged, line, |before|) == Ok(after)
    ensures NamedAt(before + [line], after, if |after| > |merged| then at + [|before|] else at)
  {
    var lines := before + [line];
    assert forall k | 0 <= k < |at| :: lines[at[k]] == before[at[k]];
    AscendsOn(at, |before|);
  }

  /** The merge of all lines but the last, and the last one merged into it. */
  lemma {:induction false} BeforeMerges(lines: seq<Line>, merged: seq<Line>) returns (was: seq<Line>)
    requires lines != [] && Normalize(lines) == Ok(merged)
    ensures var n := |lines| - 1;
      Normalize(lines[..n]) == Ok(was) && MergeLine(was, lines[n], n) == Ok(merged)
  {
    was := Normalize(lines[..|lines| - 1]).value;
  }

  lemma {:induction false} SplitLast(lines: seq<Line>)
    requires lines != []
    ensures lines == lines[..|lines| - 1] + [lines[|lines| - 1]]
  {
  }

  /** The lines of the request come in the order in which its credits are first named. */
  lemma {:induction false} MergeOrder(lines: seq<Line>, merged: seq<Line>) returns (at: seq<nat>)
    requires Normalize(lines) == Ok(merged)
    ensures NamedAt(lines, merged, at)
  {
    if lines == [] {
      at := [];
    } else {
      var before, line := lines[..|lines| - 1], lines[|lines| - 1];
      var was := BeforeMerges(lines, merged);
      SplitLast(lines);
      at := MergeOrder(before, was);
      MergeNamed(before, line, was, merged, at);
      at := if |merged| > |was| then at + [|before|] else at;
    }
  }

  /** The figure an invoice is settled at counts every line once. */
  lemma {:induction false} SumMeaning(lines: seq<Line>, l: Line)
    ensures Sum([]) == 0 && Sum(lines + [l]) == Sum(lines) + l.amount
  {
    assert (lines + [l])[..|lines|] == lines;
  }

  // ---------------------------------------------------------------- the action

  /** The action says whether pairs stood before and stand after, and whether they are others. */
  lemma {:induction false} ActionMeaning(b: Books, ctx: Context, request: Option<seq<Line>>, b': Books)
    requires BooksInv(b) && InvoiceOk(b.balances, ctx) && Sync(b, ctx, request) == Ok(b')
    ensures var before, after := LiveLines(b.rows, ctx.bill.id), LiveLines(b'.rows, ctx.bill.id);
      var action := ActionOf(b.rows, ctx, request);
      && (action == Unchanged <==> multiset(before) == multiset(after))
      && (action == Action.Posted <==> before == [] && after != [])
      && (action == Reversed <==> before != [] && after == [])
      && (action == Replaced <==> before != [] && after != [] && multiset(before) != multiset(after))
  {
    var before, after := LiveLines(b.rows, ctx.bill.id), LiveLines(b'.rows, ctx.bill.id);
    LiveIdsDistinct(b, ctx);
    if Changes(b.rows, ctx, request) {
      ChangeReplaces(b, ctx, request, b');
      assert after == Requested(request);
      if multiset(before) == multiset(after) { PermutationMatches(before, after); }
      EmptyOrNot(before, after);
    } else {
      KeepBooks(b, ctx, request, b');
    }
  }

  lemma {:induction false} EmptyOrNot(before: seq<Line>, after: seq<Line>)
    ensures multiset(before) == multiset(after) ==> |before| == |after|
    ensures !Matches(before, after) && before == [] ==> after != []
  {
    assert multiset(before) == multiset(after) ==> |multiset(before)| == |multiset(after)|;
  }

  // ---------------------------------------------------------------- the errors

  /** Each refusal of a line, by what is wrong with the credit. */
  ghost predicate Explains(e: Error, balances: Balances, ctx: Context, line: Line, index: nat, taken: int) {
    var key := Key(line.id, line.year);
    var found := key in balances && balances[key].company == ctx.company && balances[key].open;
    match e
    case CreditNotFound(i) => i == index && !found
    case OtherParty(i) => i == index && found && balances[key].party != ctx.party
    case NotACredit(i) => i == index && found && balances[key].party == ctx.party && balances[key].side == DR
    case TypeNotAllowed(i) =>
      && i == index && found && balances[key].party == ctx.party && balances[key].side == CR
      && balances[key].billType != Advance && balances[key].billType != SalesReturn
    case OverPending(i) =>
      && i == index && found && balances[key].party == ctx.party && balances[key].side == CR
      && (balances[key].billType == Advance || balances[key].billType == SalesReturn)
      && balances[key].face - balances[key].alloc + taken < line.amount
    case _ => false
  }

  lemma {:induction false} RefusalMeaning(balances: Balances, ctx: Context, line: Line, index: nat)
    ensures forall e :: Refusal(balances, ctx, line, index) == Some(e) <==> Explains(e, balances, ctx, line, index, 0)
  {
  }

  /** The first line that cannot be posted names itself. */
  ghost predicate FirstFailure(balances: Balances, ctx: Context, lines: seq<Line>, e: Error, k: nat) {
    && k < |lines| && (forall j | 0 <= j < k :: CanPost(balances, ctx, lines[j]))
    && Refusal(balances, ctx, lines[k], k) == Some(e)
  }

  lemma {:induction false} RefusalSame(x: Balances, y: Balances, ctx: Context, line: Line, index: nat)
    requires SameAt(x, y, line.Credit())
    ensures Refusal(x, ctx, line, index) == Refusal(y, ctx, line, index)
  {
  }

  lemma {:induction false} PostErr(b: Books, ctx: Context, line: Line, index: nat, no: nat)
    requires Backed(b) && 0 < line.amount && Do(b, ctx, Post(line, index, no)).Err?
    ensures Refusal(b.balances, ctx, line, index) == Some(Do(b, ctx, Post(line, index, no)).error)
  {
    PostIff(b, ctx, line, index, no);
    assert BackedAt(b, line.Credit());
  }

  lemma {:induction false} PostsFail(b: Books, ctx: Context, lines: seq<Line>, no: nat) returns (k: nat)
    requires IdsUnique(b.balances) && Backed(b) && InvoiceOk(b.balances, ctx) && DistinctIds(lines)
    requires forall i | 0 <= i < |lines| :: 0 < lines[i].amount
    requires Run(b, ctx, PostOps(lines, no)).Err?
    ensures FirstFailure(b.balances, ctx, lines, Run(b, ctx, PostOps(lines, no)).error, k)
  {
    var n, ops := |lines| - 1, PostOps(lines, no);
    var before := lines[..n];
    assert ops[..n] == PostOps(before, no) && lines == before + [lines[n]];
    DistinctBefore(before, lines[n]);
    PostsIff(b, ctx, before, no);
    if Run(b, ctx, ops[..n]).Err? {
      k := PostsFail(b, ctx, before, no);
    } else {
      k := n;
      var mid := Run(b, ctx, ops[..n]).value;
      RunBacked(b, ctx, ops[..n]);
      PostsLeave(b, ctx, before, no, lines[n].Credit());
      PostErr(mid, ctx, lines[n], n, no + 2 * n);
      RefusalSame(b.balances, mid.balances, ctx, lines[n], n);
      assert forall j | 0 <= j < n :: before[j] == lines[j] && CanPost(b.balances, ctx, before[j]);
    }
  }

  /** The first line the credits do not cover, once what the invoice takes is given back, and why. */
  ghost predicate StopsAt(b: Books, ctx: Context, lines: seq<Line>, e: Error, k: nat) {
    && k < |lines| && (forall j | 0 <= j < k :: Covers(b, ctx, lines[j]))
    && Explains(e, b.balances, ctx, lines[k], k, if lines[k].Credit() in b.balances then Taken(b, ctx, lines[k].Credit()) else 0)
  }

  lemma {:induction false} ExplainsAfterUndo(b: Books, ctx: Context, at: seq<nat>, undone: seq<Row>, mid: Books, line: Line, k: nat, e: Error)
    requires BooksInv(b) && InvoiceOk(b.balances, ctx)
    requires Undoing(b, ctx, at, undone) && at == LiveIndices(b.rows, ctx.bill.id, true, |b.rows|)
    requires Run(b, ctx, UndoPhase(b.rows, ctx.bill.id)) == Ok(mid) && mid.rows == b.rows + undone
    requires Refusal(mid.balances, ctx, line, k) == Some(e)
    ensures Explains(e, b.balances, ctx, line, k, if line.Credit() in b.balances then Taken(b, ctx, line.Credit()) else 0)
  {
    var c := line.Credit();
    RunFrame(b, ctx, UndoPhase(b.rows, ctx.bill.id));
    RefusalMeaning(mid.balances, ctx, line, k);
    if OnSide(b.balances, c, CR) {
      UndoGivesBack(b, ctx, at, undone, mid, c);
      ExplainsMoved(b.balances, mid.balances, ctx, line, k, Taken(b, ctx, c), e);
    } else if c in b.balances {
      assert mid.balances[c].(alloc := b.balances[c].alloc) == b.balances[c];
    }
  }

  lemma {:induction false} ExplainsMoved(x: Balances, y: Balances, ctx: Context, line: Line, k: nat, taken: int, e: Error)
    requires line.Credit() in x && line.Credit() in y
    requires y[line.Credit()] == x[line.Credit()].(alloc := x[line.Credit()].alloc - taken)
    ensures Explains(e, y, ctx, line, k, 0) <==> Explains(e, x, ctx, line, k, taken)
  {
  }

  lemma {:induction false} SettleErr(b: Books, ctx: Context, ops: seq<Op>, adjusted: int)
    requires ctx.bill in b.balances && Run(b, ctx, ops).Ok? && Run(b, ctx, ops + [Settle(adjusted)]).Err?
    ensures Run(b, ctx, ops + [Settle(adjusted)]) == Err(SettledCheck(ctx.bill)) && !Fits(b.balances, ctx, adjusted)
  {
    assert (ops + [Settle(adjusted)])[..|ops|] == ops;
    SettleIff(b, ctx, ops, adjusted);
    RunFrame(b, ctx, ops);
  }

  /** Posting fails as its first failing line does. */
  lemma {:induction false} SettleKeepsErr(b: Books, ctx: Context, ops: seq<Op>, adjusted: int)
    requires Run(b, ctx, ops).Err?
    ensures Run(b, ctx, ops + [Settle(adjusted)]) == Run(b, ctx, ops)
  {
    assert (ops + [Settle(adjusted)])[..|ops|] == ops;
  }

  /** Why the postings after the undo failed. */
  ghost predicate PostingFails(b: Books, ctx: Context, lines: seq<Line>, e: Error) {
    || (exists k: nat :: StopsAt(b, ctx, lines, e, k))
    || (ctx.bill in b.balances && AllCover(b, ctx, lines) && e == SettledCheck(ctx.bill) && !Fits(b.balances, ctx, Sum(lines)))
  }

  lemma {:induction false} PostsStop(b: Books, ctx: Context, lines: seq<Line>, at: seq<nat>, undone: seq<Row>, mid: Books, no: nat, e: Error)
    requires BooksInv(b) && InvoiceOk(b.balances, ctx) && SameButAlloc(b.balances, mid.balances) && Backed(mid)
    requires Undoing(b, ctx, at, undone) && at == LiveIndices(b.rows, ctx.bill.id, true, |b.rows|)
    requires Run(b, ctx, UndoPhase(b.rows, ctx.bill.id)) == Ok(mid) && mid.rows == b.rows + undone
    requires DistinctIds(lines) && forall i | 0 <= i < |lines| :: 0 < lines[i].amount
    requires Run(mid, ctx, PostOps(lines, no)) == Err(e)
    ensures PostingFails(b, ctx, lines, e)
  {
    var k := PostsFail(mid, ctx, lines, no);
    ExplainsAfterUndo(b, ctx, at, undone, mid, lines[k], k, e);
    forall j | 0 <= j < k ensures Covers(b, ctx, lines[j]) {
      CoversAfterUndo(b, ctx, at, undone, mid, lines[j]);
    }
    assert StopsAt(b, ctx, lines, e, k);
  }

  lemma {:induction false} FigureStops(b: Books, ctx: Context, lines: seq<Line>, mid: Books, ops: seq<Op>, e: Error)
    requires InvoiceOk(b.balances, ctx) && SameButAlloc(b.balances, mid.balances) && AllCover(b, ctx, lines)
    requires Run(mid, ctx, ops).Ok? && Run(mid, ctx, ops + [Settle(Sum(lines))]) == Err(e)
    ensures PostingFails(b, ctx, lines, e)
  {
    SettleErr(mid, ctx, ops, Sum(lines));
    assert mid.balances[ctx.bill].(alloc := b.balances[ctx.bill].alloc) == b.balances[ctx.bill];
  }

  /**
   A request that would change something and is refused: at its first line that the credits do not cover, with the
   reason, or, when they cover all, because the invoice's figure would be out of range.
   */
  lemma {:induction false} FirstRefusal(b: Books, ctx: Context, request: Option<seq<Line>>, e: Error)
    requires BooksInv(b) && InvoiceOk(b.balances, ctx) && Changes(b.rows, ctx, request) && Sync(b, ctx, request) == Err(e)
    ensures PostingFails(b, ctx, Requested(request), e)
  {
    ChangeOps(b, ctx, request);
    ReplaceRefused(b, ctx, Requested(request), e);
  }

  lemma {:induction false} PostedCover(b: Books, ctx: Context, lines: seq<Line>, at: seq<nat>, undone: seq<Row>, mid: Books, no: nat)
    requires BooksInv(b) && InvoiceOk(b.balances, ctx) && SameButAlloc(b.balances, mid.balances) && Backed(mid)
    requires Undoing(b, ctx, at, undone) && at == LiveIndices(b.rows, ctx.bill.id, true, |b.rows|)
    requires Run(b, ctx, UndoPhase(b.rows, ctx.bill.id)) == Ok(mid) && mid.rows == b.rows + undone
    requires DistinctIds(lines) && forall i | 0 <= i < |lines| :: 0 < lines[i].amount
    requires Run(mid, ctx, PostOps(lines, no)).Ok?
    ensures AllCover(b, ctx, lines)
  {
    assert mid.balances[ctx.bill].(alloc := b.balances[ctx.bill].alloc) == b.balances[ctx.bill];
    PostsIff(mid, ctx, lines, no);
    AllCoverAfterUndo(b, ctx, at, undone, mid, lines);
  }

  lemma {:induction false} UndoneRefused(b: Books, ctx: Context, lines: seq<Line>, at: seq<nat>, undone: seq<Row>, mid: Books, no: nat, e: Error)
    requires BooksInv(b) && InvoiceOk(b.balances, ctx) && SameButAlloc(b.balances, mid.balances) && Backed(mid)
    requires Undoing(b, ctx, at, undone) && at == LiveIndices(b.rows, ctx.bill.id, true, |b.rows|)
    requires Run(b, ctx, UndoPhase(b.rows, ctx.bill.id)) == Ok(mid) && mid.rows == b.rows + undone
    requires DistinctIds(lines) && forall i | 0 <= i < |lines| :: 0 < lines[i].amount
    requires Run(mid, ctx, PostOps(lines, no) + [Settle(Sum(lines))]) == Err(e)
    ensures PostingFails(b, ctx, lines, e)
  {
    var ops := PostOps(lines, no);
    if Run(mid, ctx, ops).Ok? {
      PostedCover(b, ctx, lines, at, undone, mid, no);
      FigureStops(b, ctx, lines, mid, ops, e);
    } else {
      SettleKeepsErr(mid, ctx, ops, Sum(lines));
      PostsStop(b, ctx, lines, at, undone, mid, no, e);
    }
  }

  lemma {:induction false} ReplaceRefused(b: Books, ctx: Context, lines: seq<Line>, e: Error)
    requires BooksInv(b) && InvoiceOk(b.balances, ctx) && Run(b, ctx, ReplaceOps(b.rows, ctx, lines)) == Err(e)
    requires DistinctIds(lines) && forall i | 0 <= i < |lines| :: 0 < lines[i].amount
    ensures PostingFails(b, ctx, lines, e)
  {
    var at, undone, mid := AfterUndoing(b, ctx, lines);
    UndoneRefused(b, ctx, lines, at, undone, mid, HighestRowNo(b.rows + undone, ctx.bill.id) + 1, e);
  }

  /** A request is refused at its first line that is not positive or gives a credit a second year. */
  lemma {:induction false} NormalizeStopsAt(lines: seq<Line>, e: Error) returns (i: nat)
    requires Normalize(lines) == Err(e)
    ensures i < |lines| && Acceptable(lines[..i]) && !Acceptable(lines[..i + 1])
    ensures e == if lines[i].amount <= 0 then NotPositive(i) else YearConflict(i)
  {
    var n := |lines| - 1;
    if Normalize(lines[..n]).Err? {
      i := NormalizeStopsAt(lines[..n], e);
      assert lines[..n][..i] == lines[..i] && lines[..n][..i + 1] == lines[..i + 1];
    } else {
      i := n;
      assert lines[..n + 1] == lines;
      NormalizeMeaning(lines[..n]);
      NormalizeMeaning(lines);
    }
  }
}
