/**
 Transactions that keep out of each other's invoices.  As long as no two are inside one invoice, the reads a
 sync spreads over time add up to the plan it would read in one instant, and the outcome of any interleaving is
 that of running the committed syncs one after the other in commit order.  Nothing in the engine sees to that:
 SetOffOverlap.dfy shows what two transactions inside one invoice do.
 */
module SetOffSerial {
  import opened Prelude
  import opened SetOff
  import opened SetOffLog
  import opened SetOffLaws
  import opened SetOffSync
  import opened SetOffRuns

  /** The callers' contract: no two transactions inside one invoice. */
  ghost predicate Apart(s: System) {
    forall i, j | i in s.txs && j in s.txs && i != j :: s.txs[i].ctx.bill != s.txs[j].ctx.bill
  }

  /** A request that replaces what stands. */
  ghost predicate Replaces(rows: seq<Row>, t: Tx) {
    Changes(rows, t.ctx, t.request) && LiveLines(rows, t.ctx.bill.id) != []
  }

  /** What was read and decided so far is what would be read and decided now. */
  ghost predicate Planned(b: Books, t: Tx) {
    var bill := t.ctx.bill.id;
    match t.stage
    case Looking(found) => found == PlainIndices(b.rows, bill, false, |b.rows|)
    case Finding => Replaces(b.rows, t)
    case Checking(found) => Replaces(b.rows, t) && found == PlainIndices(b.rows, bill, true, |b.rows|)
    case Numbering(at) => Replaces(b.rows, t) && at == LiveIndices(b.rows, bill, true, |b.rows|)
    case Posting => Changes(b.rows, t.ctx, t.request) && t.undo == UndoPhase(b.rows, bill)
    case Settling =>
      if Changes(b.rows, t.ctx, t.request)
      then
        && t.undo == UndoPhase(b.rows, bill)
        && t.tail == PostPhase(b.rows + UndoRows(UndoPhase(b.rows, bill)), bill, Requested(t.request))
      else t.undo == [] && Plan(b.rows, t.ctx, t.request) == Ok(t.tail)
  }

  lemma {:induction false} PlannedIsPlan(b: Books, t: Tx)
    requires t.stage.Settling? && Planned(b, t)
    ensures Plan(b.rows, t.ctx, t.request) == Ok(t.Ops())
  {
    assert [] + t.tail == t.tail;
  }

  ghost predicate AllPlanned(s: System) { forall id | id in s.txs :: Planned(s.books, s.txs[id]) }

  /** What interleavings that keep apart keep besides: the plans read are the plans of the books as they are NOW. */
  ghost predicate SystemInv(s: System) { LockInv(s) && BooksInv(s.books) && AllPlanned(s) }

  // ---------------------------------------------------------------- the plan is stable

  lemma {:induction false} LiveIndicesStable(rows: seq<Row>, rows': seq<Row>, billId: nat, both: bool, n: nat)
    requires rows <= rows' && n <= |rows|
    requires forall i | 0 <= i < |rows| && Concerns(rows[i], billId, true) :: LiveAt(rows, i) <==> LiveAt(rows', i)
    ensures LiveIndices(rows', billId, both, n) == LiveIndices(rows, billId, both, n)
  {
    if n > 0 {
      LiveIndicesStable(rows, rows', billId, both, n - 1);
      assert rows[n - 1] == rows'[n - 1];
    }
  }

  lemma {:induction false} LiveIndicesSkip(rows: seq<Row>, billId: nat, both: bool, m: nat, n: nat)
    requires m <= n <= |rows|
    requires forall i | m <= i < n :: !Concerns(rows[i], billId, true)
    ensures LiveIndices(rows, billId, both, n) == LiveIndices(rows, billId, both, m)
  {
    if m < n { LiveIndicesSkip(rows, billId, both, m, n - 1); }
  }

  lemma {:induction false} PlainIndicesStable(rows: seq<Row>, rows': seq<Row>, billId: nat, both: bool, n: nat)
    requires rows <= rows' && n <= |rows|
    ensures PlainIndices(rows', billId, both, n) == PlainIndices(rows, billId, both, n)
  {
    if n > 0 {
      PlainIndicesStable(rows, rows', billId, both, n - 1);
      assert rows[n - 1] == rows'[n - 1];
    }
  }

  lemma {:induction false} PlainIndicesSkip(rows: seq<Row>, billId: nat, both: bool, m: nat, n: nat)
    requires m <= n <= |rows|
    requires forall i | m <= i < n :: !Concerns(rows[i], billId, true)
    ensures PlainIndices(rows, billId, both, n) == PlainIndices(rows, billId, both, m)
  {
    if m < n { PlainIndicesSkip(rows, billId, both, m, n - 1); }
  }

  lemma {:induction false} HighestRowNoSkip(rows: seq<Row>, more: seq<Row>, billId: nat)
    requires forall i | 0 <= i < |more| :: more[i].bill.id != billId
    ensures HighestRowNo(rows + more, billId) == HighestRowNo(rows, billId)
  {
    if more == [] {
      assert rows + more == rows;
    } else {
      var n := |more| - 1;
      assert (rows + more)[..|rows + more| - 1] == rows + more[..n];
      HighestRowNoSkip(rows, more[..n], billId);
    }
  }

  /** Rows of other invoices change neither what stands for a bill nor its next ordinal. */
  ghost predicate Foreign(rows: seq<Row>, rows': seq<Row>, billId: nat) {
    && rows <= rows'
    && (forall i | 0 <= i < |rows| && Concerns(rows[i], billId, true) :: LiveAt(rows, i) <==> LiveAt(rows', i))
    && (forall i | |rows| <= i < |rows'| :: !Concerns(rows'[i], billId, true))
  }

  lemma {:induction false} LookupsStable(rows: seq<Row>, rows': seq<Row>, billId: nat, both: bool)
    requires Foreign(rows, rows', billId)
    ensures LiveIndices(rows', billId, both, |rows'|) == LiveIndices(rows, billId, both, |rows|)
    ensures PlainIndices(rows', billId, both, |rows'|) == PlainIndices(rows, billId, both, |rows|)
    ensures HighestRowNo(rows', billId) == HighestRowNo(rows, billId)
  {
    PlainIndicesSkip(rows', billId, both, |rows|, |rows'|);
    PlainIndicesStable(rows, rows', billId, both, |rows|);
    LiveIndicesSkip(rows', billId, both, |rows|, |rows'|);
    LiveIndicesStable(rows, rows', billId, both, |rows|);
    var more := rows'[|rows|..];
    assert rows' == rows + more;
    assert forall i | 0 <= i < |more| :: more[i] == rows'[|rows| + i];
    HighestRowNoSkip(rows, more, billId);
  }

  lemma {:induction false} PhasesStable(rows: seq<Row>, rows': seq<Row>, billId: nat)
    requires Foreign(rows, rows', billId)
    ensures LiveLines(rows', billId) == LiveLines(rows, billId)
    ensures UndoPhase(rows', billId) == UndoPhase(rows, billId)
  {
    LookupsStable(rows, rows', billId, false);
    LookupsStable(rows, rows', billId, true);
    var live, at := LiveIndices(rows, billId, false, |rows|), LiveIndices(rows, billId, true, |rows|);
    assert forall k | 0 <= k < |live| :: rows[live[k]] == rows'[live[k]];
    assert forall k | 0 <= k < |at| :: rows[at[k]] == rows'[at[k]];
    assert LiveLines(rows', billId) == LiveLines(rows, billId);
    var no := HighestRowNo(rows, billId) + 1;
    assert UndoOps(rows', at, no) == UndoOps(rows, at, no);
  }

  lemma {:induction false} HighestAfter(rows: seq<Row>, rows': seq<Row>, more: seq<Row>, billId: nat)
    requires HighestRowNo(rows', billId) == HighestRowNo(rows, billId)
    ensures HighestRowNo(rows' + more, billId) == HighestRowNo(rows + more, billId)
  {
    if more == [] {
      assert rows + more == rows && rows' + more == rows';
    } else {
      var n := |more| - 1;
      assert (rows + more)[..|rows + more| - 1] == rows + more[..n];
      assert (rows' + more)[..|rows' + more| - 1] == rows' + more[..n];
      HighestAfter(rows, rows', more[..n], billId);
    }
  }

  lemma {:induction false} PlanStable(rows: seq<Row>, rows': seq<Row>, ctx: Context, request: Option<seq<Line>>)
    requires Foreign(rows, rows', ctx.bill.id)
    ensures Plan(rows', ctx, request) == Plan(rows, ctx, request)
  {
    PhasesStable(rows, rows', ctx.bill.id);
    if request.Some? && Normalize(request.value).Ok? {
      ReplaceStable(rows, rows', ctx, Normalize(request.value).value);
    }
  }

  lemma {:induction false} ReplaceStable(rows: seq<Row>, rows': seq<Row>, ctx: Context, requested: seq<Line>)
    requires Foreign(rows, rows', ctx.bill.id)
    ensures ReplaceOps(rows', ctx, requested) == ReplaceOps(rows, ctx, requested)
  {
    var undo := UndoPhase(rows, ctx.bill.id);
    PhasesStable(rows, rows', ctx.bill.id);
    PostPhaseStable(rows, rows', UndoRows(undo), ctx.bill.id, requested);
  }

  lemma {:induction false} PostPhaseStable(rows: seq<Row>, rows': seq<Row>, more: seq<Row>, billId: nat, requested: seq<Line>)
    requires Foreign(rows, rows', billId)
    ensures PostPhase(rows' + more, billId, requested) == PostPhase(rows + more, billId, requested)
  {
    LookupsStable(rows, rows', billId, true);
    HighestAfter(rows, rows', more, billId);
  }

  /** What one invoice's sync does to the log is foreign to every other invoice. */
  lemma {:induction false} CommitIsForeign(b: Books, b': Books, mine: Context, other: Context)
    requires KeysInv(b) && KeysInv(b') && SameButAlloc(b.balances, b'.balances)
    requires InvoiceOk(b.balances, mine) && InvoiceOk(b.balances, other) && mine.bill != other.bill
    requires OthersUntouched(b.rows, b'.rows, mine.bill.id)
    ensures Foreign(b.rows, b'.rows, other.bill.id)
  {
    assert InvoiceOk(b'.balances, mine) && InvoiceOk(b'.balances, other);
    forall i | 0 <= i < |b.rows| && Concerns(b.rows[i], other.bill.id, true)
      ensures LiveAt(b.rows, i) <==> LiveAt(b'.rows, i)
    {
      InvoiceConcern(b, mine, i);
      InvoiceConcern(b, other, i);
      assert UntouchedAt(b.rows, b'.rows, mine.bill.id, i);
    }
    forall i | |b.rows| <= i < |b'.rows| ensures !Concerns(b'.rows[i], other.bill.id, true) {
      InvoiceConcern(b', mine, i);
      InvoiceConcern(b', other, i);
    }
  }

  // ---------------------------------------------------------------- the reads add up to the plan

  /** Finding the rows and then asking which are reversed is the look-up in one. */
  lemma {:induction false} TwoReads(rows: seq<Row>, billId: nat, both: bool, n: nat)
    requires n <= |rows|
    ensures Unreversed(rows, PlainIndices(rows, billId, both, n)) == LiveIndices(rows, billId, both, n)
  {
    if n > 0 {
      TwoReads(rows, billId, both, n - 1);
      var rest, at := PlainIndices(rows, billId, both, n - 1), PlainIndices(rows, billId, both, n);
      assert at != rest ==> at[..|at| - 1] == rest;
    }
  }

  lemma {:induction false} DecidePlanned(b: Books, t: Tx)
    requires t.stage.Looking? && Planned(b, t) && StageOk(t)
    requires NextRead(b, t).Some?
    ensures Planned(b, NextRead(b, t).value)
  {
    TwoReads(b.rows, t.ctx.bill.id, false, |b.rows|);
    var live := LiveLines(b.rows, t.ctx.bill.id);
    var t' := NextRead(b, t).value;
    assert NextRead(b, t) == Decide(t, live);
    assert t'.stage.Settling? ==> t'.Ops() == t'.tail;
  }

  lemma {:induction false} PostingPlanned(b: Books, t: Tx)
    requires t.stage.Posting? && Planned(b, t) && Running(b, t) && t.done >= |t.undo|
    ensures Planned(b, NextRead(b, t).value)
  {
    assert t.Ops() == t.undo;
    CommitRuns(b, t);
    RunUndos(b, t.ctx, t.undo);
    assert b.rows + t.rows == b.rows + UndoRows(t.undo);
    var t' := NextRead(b, t).value;
    assert t'.Ops() == ReplaceOps(b.rows, t.ctx, Requested(t.request));
  }

  /** The next read takes the transaction on along the plan of the books as they are now. */
  lemma {:induction false} NextReadPlanned(b: Books, t: Tx)
    requires Running(b, t) && Planned(b, t) && NextRead(b, t).Some?
    ensures Planned(b, NextRead(b, t).value)
  {
    match t.stage
    case Looking(_) => DecidePlanned(b, t);
    case Finding =>
    case Checking(_) => TwoReads(b.rows, t.ctx.bill.id, true, |b.rows|);
    case Numbering(_) =>
    case Posting => PostingPlanned(b, t);
    case Settling =>
  }

  lemma {:induction false} PlannedStable(b: Books, b': Books, t: Tx)
    requires Foreign(b.rows, b'.rows, t.ctx.bill.id) && Planned(b, t)
    ensures Planned(b', t)
  {
    PhasesStable(b.rows, b'.rows, t.ctx.bill.id);
    LookupsStable(b.rows, b'.rows, t.ctx.bill.id, t.stage.Checking? || t.stage.Numbering?);
    if t.stage.Settling? {
      PlanStable(b.rows, b'.rows, t.ctx, t.request);
      PostPhaseStable(b.rows, b'.rows, UndoRows(UndoPhase(b.rows, t.ctx.bill.id)), t.ctx.bill.id, Requested(t.request));
    }
  }

  // ---------------------------------------------------------------- keeping apart

  /** A commit is one sync of the books it commits into. */
  lemma {:induction false} CommitIsSync(b: Books, t: Tx)
    requires Running(b, t) && Planned(b, t) && t.stage.Settling? && t.done == |t.Ops()|
    ensures Sync(b, t.ctx, t.request) == Ok(View(b, t.rows, t.written))
  {
    CommitRuns(b, t);
    PlannedIsPlan(b, t);
  }

  /** The plan another transaction read for another invoice is still the plan. */
  lemma {:induction false} CommitKeepsPlan(b: Books, b': Books, u: Tx, t: Tx)
    requires BooksInv(b) && InvoiceOk(b.balances, u.ctx) && Sync(b, u.ctx, u.request) == Ok(b')
    requires InvoiceOk(b.balances, t.ctx) && Planned(b, t) && u.ctx.bill != t.ctx.bill
    ensures Planned(b', t)
  {
    SyncKeepsBooks(b, u.ctx, u.request, b');
    CommitIsForeign(b, b', u.ctx, t.ctx);
    PlannedStable(b, b', t);
  }

  lemma {:induction false} CommitApart(s: System, id: nat, s': System)
    requires SystemInv(s) && Apart(s) && Next(s, Commit(id), s')
    ensures BooksInv(s'.books) && AllPlanned(s')
    ensures Sync(s.books, s.txs[id].ctx, s.txs[id].request) == Ok(s'.books)
  {
    var t := s.txs[id];
    assert Running(s.books, t) && Planned(s.books, t);
    CommitIsSync(s.books, t);
    SyncKeepsBooks(s.books, t.ctx, t.request, s'.books);
    forall other | other in s'.txs ensures Planned(s'.books, s'.txs[other]) {
      assert Running(s.books, s.txs[other]) && Planned(s.books, s.txs[other]);
      CommitKeepsPlan(s.books, s'.books, t, s.txs[other]);
    }
  }

  /** Every step from a state kept apart keeps the invariant, and a commit is one whole sync. */
  lemma {:induction false} StepKeepsInv(s: System, e: Event, s': System)
    requires SystemInv(s) && Apart(s) && Next(s, e, s')
    ensures SystemInv(s')
    ensures e.Commit? ==> Sync(s.books, s.txs[e.id].ctx, s.txs[e.id].request) == Ok(s'.books)
    ensures !e.Commit? ==> s'.books == s.books
  {
    StepKeepsLocks(s, e, s');
    if e.Commit? {
      CommitApart(s, e.id, s');
    } else {
      PlansStay(s, e, s');
    }
  }

  lemma {:induction false} OnePlanned(s: System, id: nat, t: Tx)
    requires AllPlanned(s) && Planned(s.books, t)
    ensures AllPlanned(s.(txs := s.txs[id := t]))
  {
  }

  lemma {:induction false} ReadPlanned(s: System, id: nat, s': System)
    requires AllRunning(s) && AllPlanned(s) && Next(s, Read(id), s')
    ensures AllPlanned(s')
  {
    assert Running(s.books, s.txs[id]) && Planned(s.books, s.txs[id]);
    NextReadPlanned(s.books, s.txs[id]);
    OnePlanned(s, id, s'.txs[id]);
  }

  lemma {:induction false} PlansStay(s: System, e: Event, s': System)
    requires AllRunning(s) && AllPlanned(s) && Next(s, e, s') && !e.Commit?
    ensures AllPlanned(s')
  {
    match e {
      case Begin(id, ctx, request) => OnePlanned(s, id, s'.txs[id]);
      case Read(id) => ReadPlanned(s, id, s');
      case Lock(id, key) =>
        assert Planned(s.books, s.txs[id]);
        OnePlanned(s, id, s'.txs[id]);
      case Perform(id) =>
        assert Planned(s.books, s.txs[id]);
        OnePlanned(s, id, s'.txs[id]);
      case Abort(id) =>
    }
  }

  // ---------------------------------------------------------------- whole runs

  datatype Job = Job(ctx: Context, request: Option<seq<Line>>)

  /** The committed syncs, one after the other. */
  ghost function Serial(b: Books, jobs: seq<Job>): Result<Books, Error> {
    if jobs == [] then Ok(b)
    else
      var n := |jobs| - 1;
      match Serial(b, jobs[..n])
      case Err(e) => Err(e)
      case Ok(mid) => Sync(mid, jobs[n].ctx, jobs[n].request)
  }

  /** What was committed, in commit order. */
  ghost function Committed(states: seq<System>, events: seq<Event>): seq<Job>
    requires IsRun(states, events)
  {
    if events == [] then []
    else
      var n := |events| - 1;
      assert IsRun(states[..n + 1], events[..n]);
      var rest := Committed(states[..n + 1], events[..n]);
      if events[n].Commit? then
        assert Next(states[n], events[n], states[n + 1]);
        rest + [Job(states[n].txs[events[n].id].ctx, states[n].txs[events[n].id].request)]
      else rest
  }

  /** A run in which no two transactions are ever inside one invoice. */
  ghost predicate KeptApart(states: seq<System>) { forall i | 0 <= i < |states| :: Apart(states[i]) }

  /** Kept apart, any interleaving ends in the books that its committed syncs make one after the other. */
  lemma {:induction false} Serializable(states: seq<System>, events: seq<Event>)
    requires IsRun(states, events) && Starts(states[0]) && KeptApart(states)
    ensures SystemInv(states[|events|])
    ensures Serial(states[0].books, Committed(states, events)) == Ok(states[|events|].books)
  {
    if events != [] {
      var n := |events| - 1;
      assert IsRun(states[..n + 1], events[..n]) && KeptApart(states[..n + 1]);
      Serializable(states[..n + 1], events[..n]);
      assert Next(states[n], events[n], states[n + 1]);
      StepKeepsInv(states[n], events[n], states[n + 1]);
      if events[n].Commit? {
        var jobs := Committed(states, events);
        assert jobs[..|jobs| - 1] == Committed(states[..n + 1], events[..n]);
      }
    }
  }
}
