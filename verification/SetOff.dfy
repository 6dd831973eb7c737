/**
 The bill set-off engine (src/common/posting/bill-adjustment.helper.ts): credits a party already
 holds are set off against an invoice by writing paired rows to an append-only log, and the
 allocation figure of every balance touched is kept by hand.

 Money is in paise.  A row is identified by its position in the log.  A sync is described as a
 list of operations (`Plan`) carried out one after the other (`Run`): the class in SetOffBook.dfy
 carries them out in loops, SetOffRuns.dfy interleaves the operations of several transactions.
 */
module SetOff {
  import opened Prelude

  /** acc_bill_balance's key: the id, and the accounting year the table is partitioned on. */
  datatype Key = Key(id: nat, year: nat)

  datatype BillType = Advance | SalesReturn | OtherType

  datatype AdjType = AdvanceAdjust | NoteAdjust

  /** `face` is the bill amount net of discount and write-off; `open` is active and not deleted. */
  datatype Balance = Balance(
    company: nat, party: nat, side: Side, billType: BillType, open: bool, face: int, alloc: int)
  {
    function Pending(): int { face - alloc }
  }

  type Balances = map<Key, Balance>

  datatype Row = Row(
    bill: Key, against: Key, rowNo: nat, adjType: AdjType, side: Side, amount: int,
    reversalOf: Option<nat>)

  datatype Books = Books(rows: seq<Row>, balances: Balances)

  datatype Context = Context(bill: Key, billAmount: int, paid: int, company: nat, party: nat)

  /** One line of the request: settle this much of the invoice from this credit. */
  datatype Line = Line(id: nat, year: nat, amount: int)
  {
    function Credit(): Key { Key(id, year) }
  }

  datatype Error =
    | NotPositive(index: nat)
    | YearConflict(index: nat)
    | CreditNotFound(index: nat)
    | OtherParty(index: nat)
    | NotACredit(index: nat)
    | TypeNotAllowed(index: nat)
    | OverPending(index: nat)
    | NoBalanceRow(key: Key)
    | SettledCheck(key: Key)

  datatype Action = Unchanged | Posted | Reversed | Replaced

  // ---------------------------------------------------------------- the request

  function Find(lines: seq<Line>, id: nat): (at: Option<nat>)
    ensures at.Some? ==> at.value < |lines| && lines[at.value].id == id
    ensures at.None? ==> forall l <- lines :: l.id != id
  {
    if lines == [] then None
    else if lines[|lines| - 1].id == id then Some(|lines| - 1)
    else Find(lines[..|lines| - 1], id)
  }

  /** One iteration of the merging loop: `merged` is the insertion-ordered map built so far. */
  function MergeLine(merged: seq<Line>, line: Line, index: nat): Result<seq<Line>, Error> {
    if line.amount <= 0 then Err(NotPositive(index))
    else
      match Find(merged, line.id)
      case None => Ok(merged + [line])
      case Some(p) =>
        if merged[p].year != line.year then Err(YearConflict(index))
        else Ok(merged[p := merged[p].(amount := merged[p].amount + line.amount)])
  }

  function Normalize(lines: seq<Line>): Result<seq<Line>, Error> {
    if lines == [] then Ok([])
    else
      var n := |lines| - 1;
      match Normalize(lines[..n])
      case Err(e) => Err(e)
      case Ok(merged) => MergeLine(merged, lines[n], n)
  }

  // ---------------------------------------------------------------- the log

  /** Row i stands: it is no reversal, and no row reverses it. */
  predicate LiveAt(rows: seq<Row>, i: nat)
    requires i < |rows|
  {
    rows[i].reversalOf.None? && forall j | 0 <= j < |rows| :: rows[j].reversalOf != Some(i)
  }

  /** The rows of a bill; with `both`, also the rows of other bills that name it. */
  predicate Concerns(r: Row, billId: nat, both: bool) {
    r.bill.id == billId || (both && r.against.id == billId)
  }

  /** Positions, among the first n, of the standing rows that concern a bill, in log order. */
  function LiveIndices(rows: seq<Row>, billId: nat, both: bool, n: nat): (at: seq<nat>)
    requires n <= |rows|
    ensures forall k | 0 <= k < |at| :: at[k] < n
  {
    if n == 0 then []
    else
      var rest := LiveIndices(rows, billId, both, n - 1);
      if Concerns(rows[n - 1], billId, both) && LiveAt(rows, n - 1) then rest + [n - 1] else rest
  }

  /** What readLiveAdjustments returns: credit and amount of each standing row of the bill. */
  function LiveLines(rows: seq<Row>, billId: nat): seq<Line> {
    LinesAt(rows, LiveIndices(rows, billId, false, |rows|))
  }

  function LinesAt(rows: seq<Row>, at: seq<nat>): seq<Line>
    requires forall k | 0 <= k < |at| :: at[k] < |rows|
  {
    seq(|at|, k requires 0 <= k < |at| => AsLine(rows[at[k]]))
  }

  function AsLine(r: Row): Line { Line(r.against.id, r.against.year, r.amount) }

  /** The code's own test: as many lines, and each requested one is the live one of that credit. */
  predicate Matches(live: seq<Line>, requested: seq<Line>) {
    && |live| == |requested|
    && forall l <- requested ::
         var p := Find(live, l.id);
         p.Some? && live[p.value].year == l.year && live[p.value].amount == l.amount
  }

  function Sum(lines: seq<Line>): int {
    if lines == [] then 0 else Sum(lines[..|lines| - 1]) + lines[|lines| - 1].amount
  }

  /** The highest abj_row_no written for a bill, 0 when there is none. */
  function HighestRowNo(rows: seq<Row>, billId: nat): nat {
    if rows == [] then 0
    else
      var r := rows[|rows| - 1];
      var rest := HighestRowNo(rows[..|rows| - 1], billId);
      if r.bill.id == billId && r.rowNo > rest then r.rowNo else rest
  }

  // ---------------------------------------------------------------- operations

  datatype Op =
    | Undo(target: nat, row: Row, rowNo: nat)
    | Post(line: Line, index: nat, rowNo: nat)
    | Settle(adjusted: int)

  /** What one operation writes: rows for the log, and at most one allocation figure. */
  datatype Effect = Effect(rows: seq<Row>, write: Option<(Key, int)>)

  /** ck_abl_settled refuses an allocation outside 0 .. face. */
  function SetAllocation(balances: Balances, key: Key, alloc: int): Result<Option<(Key, int)>, Error> {
    if key !in balances then Err(NoBalanceRow(key))
    else if alloc < 0 || balances[key].face < alloc then Err(SettledCheck(key))
    else Ok(Some((key, alloc)))
  }

  function AddToAllocation(balances: Balances, key: Key, delta: int): Result<Option<(Key, int)>, Error> {
    if key !in balances then Err(NoBalanceRow(key))
    else SetAllocation(balances, key, balances[key].alloc + delta)
  }

  function Routing(t: BillType): Option<AdjType> {
    match t
    case Advance => Some(AdvanceAdjust)
    case SalesReturn => Some(NoteAdjust)
    case OtherType => None
  }

  /** lockCredit, deriveRouting and ensureCreditCovers: why a line may not be posted. */
  function Refusal(balances: Balances, ctx: Context, line: Line, index: nat): Option<Error> {
    var key := line.Credit();
    if key !in balances || balances[key].company != ctx.company || !balances[key].open then
      Some(CreditNotFound(index))
    else
      var credit := balances[key];
      if credit.party != ctx.party then Some(OtherParty(index))
      else if credit.side != CR then Some(NotACredit(index))
      else if Routing(credit.billType).None? then Some(TypeNotAllowed(index))
      else if credit.Pending() < line.amount then Some(OverPending(index))
      else None
  }

  function InvoiceRow(ctx: Context, line: Line, adjType: AdjType, rowNo: nat): Row {
    Row(ctx.bill, line.Credit(), rowNo, adjType, CR, line.amount, None)
  }

  function CreditRow(ctx: Context, line: Line, adjType: AdjType, rowNo: nat): Row {
    Row(line.Credit(), ctx.bill, rowNo, adjType, DR, line.amount, None)
  }

  /** The row that undoes row `target`: same bills, type and side, the amount negated. */
  function UndoRow(target: nat, row: Row, rowNo: nat): Row {
    row.(amount := -row.amount, reversalOf := Some(target), rowNo := rowNo)
  }

  function Attempt(balances: Balances, ctx: Context, op: Op): Result<Effect, Error> {
    match op
    case Undo(target, row, rowNo) =>
      var undo := [UndoRow(target, row, rowNo)];
      if row.bill.id == ctx.bill.id then Ok(Effect(undo, None))
      else (
        match AddToAllocation(balances, row.bill, -row.amount)
        case Err(e) => Err(e)
        case Ok(w) => Ok(Effect(undo, w)))
    case Post(line, index, rowNo) => (
      match Refusal(balances, ctx, line, index)
      case Some(e) => Err(e)
      case None =>
        var adjType := Routing(balances[line.Credit()].billType).value;
        match AddToAllocation(balances, line.Credit(), line.amount)
        case Err(e) => Err(e)
        case Ok(w) =>
          Ok(Effect([InvoiceRow(ctx, line, adjType, rowNo), CreditRow(ctx, line, adjType, rowNo + 1)], w)))
    case Settle(adjusted) =>
      match SetAllocation(balances, ctx.bill, Min(ctx.billAmount, ctx.paid + adjusted))
      case Err(e) => Err(e)
      case Ok(w) => Ok(Effect([], w))
  }

  function Write(balances: Balances, w: Option<(Key, int)>): Balances {
    match w
    case Some((key, alloc)) =>
      if key in balances then balances[key := balances[key].(alloc := alloc)] else balances
    case None => balances
  }

  function Apply(b: Books, e: Effect): Books {
    Books(b.rows + e.rows, Write(b.balances, e.write))
  }

  function Do(b: Books, ctx: Context, op: Op): Result<Books, Error> {
    match Attempt(b.balances, ctx, op)
    case Err(e) => Err(e)
    case Ok(effect) => Ok(Apply(b, effect))
  }

  function Run(b: Books, ctx: Context, ops: seq<Op>): Result<Books, Error> {
    if ops == [] then Ok(b)
    else
      var n := |ops| - 1;
      match Run(b, ctx, ops[..n])
      case Err(e) => Err(e)
      case Ok(mid) => Do(mid, ctx, ops[n])
  }

  // ---------------------------------------------------------------- syncBillAdjustments

  function UndoOps(rows: seq<Row>, at: seq<nat>, rowNo: nat): (ops: seq<Op>)
    requires forall k | 0 <= k < |at| :: at[k] < |rows|
    ensures |ops| == |at|
    ensures forall k | 0 <= k < |at| :: ops[k] == Undo(at[k], rows[at[k]], rowNo + k)
  {
    seq(|at|, k requires 0 <= k < |at| => Undo(at[k], rows[at[k]], rowNo + k))
  }

  function PostOps(lines: seq<Line>, rowNo: nat): (ops: seq<Op>)
    ensures |ops| == |lines|
    ensures forall k | 0 <= k < |lines| :: ops[k] == Post(lines[k], k, rowNo + 2 * k)
  {
    seq(|lines|, k requires 0 <= k < |lines| => Post(lines[k], k, rowNo + 2 * k))
  }

  /** The undo rows, as they stand in the log after the first loop. */
  function UndoRows(ops: seq<Op>): seq<Row>
    requires forall op <- ops :: op.Undo?
  {
    seq(|ops|, k requires 0 <= k < |ops| => UndoRow(ops[k].target, ops[k].row, ops[k].rowNo))
  }

  /** reverseAll is called only when readLiveAdjustments found something. */
  function UndoPhase(rows: seq<Row>, billId: nat): (ops: seq<Op>)
    ensures forall op <- ops :: op.Undo?
  {
    if LiveLines(rows, billId) == [] then []
    else UndoOps(rows, LiveIndices(rows, billId, true, |rows|), HighestRowNo(rows, billId) + 1)
  }

  function PostPhase(rows: seq<Row>, billId: nat, requested: seq<Line>): seq<Op> {
    PostOps(requested, HighestRowNo(rows, billId) + 1) + [Settle(Sum(requested))]
  }

  function ReplaceOps(rows: seq<Row>, ctx: Context, requested: seq<Line>): seq<Op> {
    var undo := UndoPhase(rows, ctx.bill.id);
    undo + PostPhase(rows + UndoRows(undo), ctx.bill.id, requested)
  }

  /** An absent request leaves the pairs alone; an empty one clears them. */
  function Plan(rows: seq<Row>, ctx: Context, request: Option<seq<Line>>): Result<seq<Op>, Error> {
    var live := LiveLines(rows, ctx.bill.id);
    var keep := if live == [] then [] else [Settle(Sum(live))];
    match request
    case None => Ok(keep)
    case Some(lines) =>
      match Normalize(lines)
      case Err(e) => Err(e)
      case Ok(requested) =>
        if Matches(live, requested) then Ok(keep) else Ok(ReplaceOps(rows, ctx, requested))
  }

  function ActionOf(rows: seq<Row>, ctx: Context, request: Option<seq<Line>>): Action {
    var live := LiveLines(rows, ctx.bill.id);
    match request
    case None => Unchanged
    case Some(lines) =>
      match Normalize(lines)
      case Err(_) => Unchanged
      case Ok(requested) =>
        if Matches(live, requested) then Unchanged
        else if live == [] then Action.Posted
        else if requested == [] then Reversed
        else Replaced
  }

  function Sync(b: Books, ctx: Context, request: Option<seq<Line>>): Result<Books, Error> {
    match Plan(b.rows, ctx, request)
    case Err(e) => Err(e)
    case Ok(ops) => Run(b, ctx, ops)
  }

  /** A run of two lists of operations is the one, then the other. */
  lemma {:induction false} RunConcat(b: Books, ctx: Context, a: seq<Op>, c: seq<Op>)
    ensures Run(b, ctx, a).Err? ==> Run(b, ctx, a + c) == Run(b, ctx, a)
    ensures Run(b, ctx, a).Ok? ==> Run(b, ctx, a + c) == Run(Run(b, ctx, a).value, ctx, c)
  {
    if c == [] {
      assert a + c == a;
    } else {
      var n := |c| - 1;
      assert (a + c)[..|a + c| - 1] == a + c[..n];
      RunConcat(b, ctx, a, c[..n]);
    }
  }

  /** A run of undo operations appends exactly the undo rows. */
  lemma {:induction false} RunUndos(b: Books, ctx: Context, ops: seq<Op>)
    requires forall op <- ops :: op.Undo?
    requires Run(b, ctx, ops).Ok?
    ensures Run(b, ctx, ops).value.rows == b.rows + UndoRows(ops)
  {
    if ops != [] {
      var n := |ops| - 1;
      RunUndos(b, ctx, ops[..n]);
      assert UndoRows(ops) == UndoRows(ops[..n]) + [UndoRow(ops[n].target, ops[n].row, ops[n].rowNo)];
    }
  }
}
