/**
 Transactions settling invoices at the same time.  Each finds out what to do in separate reads, with no lock:
 the invoice's rows, which of them are reversed, then, when something is to be undone, the rows of both sides,
 which of those are reversed, and the row numbers to go on from.  It works through its operations one by one,
 reading the committed books overlaid with its own writes.  A row of acc_bill_balance it reads for update or
 writes stays locked until it ends.  A commit that reverses a row already reversed is refused
 (ux_abj_reversal, prisma/migrations/20260811080000_replace_acc_bill_balance_and_adjustment/migration.sql).

 Every interleaving, with any number of aborts, moves each credit by exactly its rows and keeps it within its
 face.  SetOffStanding.dfy has what every interleaving keeps of the log, SetOffSerial.dfy what it comes to when
 no two transactions are inside one invoice, and SetOffOverlap.dfy what happens when they are.
 */
module SetOffRuns {
  import opened Prelude
  import opened SetOff
  import opened SetOffLog
  import opened SetOffSync

  // ---------------------------------------------------------------- reading in pieces

  /** Positions, among the first n, of the rows that concern a bill and are no reversals. */
  function PlainIndices(rows: seq<Row>, billId: nat, both: bool, n: nat): (at: seq<nat>)
    requires n <= |rows|
    ensures forall k | 0 <= k < |at| :: at[k] < n
  {
    if n == 0 then []
    else
      var rest := PlainIndices(rows, billId, both, n - 1);
      if Concerns(rows[n - 1], billId, both) && rows[n - 1].reversalOf.None? then rest + [n - 1] else rest
  }

  /** Those of the positions found earlier that stand in the log as it is now. */
  function Unreversed(rows: seq<Row>, found: seq<nat>): (at: seq<nat>)
    ensures forall k | 0 <= k < |at| :: at[k] < |rows|
  {
    if found == [] then []
    else
      var n := |found| - 1;
      var rest := Unreversed(rows, found[..n]);
      if found[n] < |rows| && LiveAt(rows, found[n]) then rest + [found[n]] else rest
  }

  predicate InLog(rows: seq<Row>, at: seq<nat>) { forall k | 0 <= k < |at| :: at[k] < |rows| }

  /** How far a transaction has read, with what it holds in hand. */
  datatype Stage =
    | Looking(found: seq<nat>)
    | Finding
    | Checking(found: seq<nat>)
    | Numbering(at: seq<nat>)
    | Posting
    | Settling

  /** `undo` and `tail` are the operations decided so far, `done` how many of them are carried out. */
  datatype Tx = Tx(
    ctx: Context, request: Option<seq<Line>>, stage: Stage, undo: seq<Op>, tail: seq<Op>, done: nat,
    locked: set<Key>, rows: seq<Row>, written: map<Key, int>)
  {
    function Ops(): seq<Op> { undo + tail }
  }

  datatype System = System(books: Books, txs: map<nat, Tx>)

  datatype Event =
    | Begin(id: nat, ctx: Context, request: Option<seq<Line>>)
    | Read(id: nat)
    | Lock(id: nat, key: Key)
    | Perform(id: nat)
    | Commit(id: nat)
    | Abort(id: nat)

  /** The first read of readLiveAdjustments. */
  function Fresh(b: Books, ctx: Context, request: Option<seq<Line>>): Tx {
    Tx(ctx, request, Looking(PlainIndices(b.rows, ctx.bill.id, false, |b.rows|)), [], [], 0, {}, [], map[])
  }

  /** What stands is known: leave it, undo it first, or post at once; None when the request is refused. */
  function Decide(t: Tx, live: seq<Line>): Option<Tx> {
    var keep := t.(stage := Settling, tail := if live == [] then [] else [Settle(Sum(live))]);
    match t.request
    case None => Some(keep)
    case Some(lines) =>
      match Normalize(lines)
      case Err(_) => None
      case Ok(requested) =>
        if Matches(live, requested) then Some(keep)
        else Some(t.(stage := if live == [] then Posting else Finding))
  }

  /** The next read, each of the committed books as they are at that moment. */
  ghost function NextRead(b: Books, t: Tx): Option<Tx> {
    match t.stage
    case Looking(found) => Decide(t, LinesAt(b.rows, Unreversed(b.rows, found)))
    case Finding => Some(t.(stage := Checking(PlainIndices(b.rows, t.ctx.bill.id, true, |b.rows|))))
    case Checking(found) => Some(t.(stage := Numbering(Unreversed(b.rows, found))))
    case Numbering(at) =>
      if !InLog(b.rows, at) then None
      else Some(t.(stage := Posting, undo := UndoOps(b.rows, at, HighestRowNo(b.rows, t.ctx.bill.id) + 1)))
    case Posting =>
      if t.done < |t.undo| then None
      else Some(t.(stage := Settling, tail := PostPhase(b.rows + t.rows, t.ctx.bill.id, Requested(t.request))))
    case Settling => None
  }

  // ---------------------------------------------------------------- steps

  function Overlay(balances: Balances, written: map<Key, int>): Balances {
    map k | k in balances :: if k in written then balances[k].(alloc := written[k]) else balances[k]
  }

  /** What a transaction sees: the committed books and its own writes. */
  function View(b: Books, rows: seq<Row>, written: map<Key, int>): Books {
    Books(b.rows + rows, Overlay(b.balances, written))
  }

  /** The balance rows an operation reads or writes. */
  function Touches(ctx: Context, op: Op): set<Key> {
    match op
    case Undo(_, row, _) => if row.bill.id == ctx.bill.id then {} else {row.bill}
    case Post(line, _, _) => {line.Credit()}
    case Settle(_) => {ctx.bill}
  }

  predicate Free(s: System, key: Key, id: nat) {
    forall other | other in s.txs && other != id :: key !in s.txs[other].locked
  }

  function Written(written: map<Key, int>, w: Option<(Key, int)>): map<Key, int> {
    if w.Some? then written[w.value.0 := w.value.1] else written
  }

  /** One operation, carried out on what the transaction sees, with the rows it touches locked. */
  ghost predicate Performed(b: Books, t: Tx, t': Tx) {
    && t.done < |t.Ops()| && Touches(t.ctx, t.Ops()[t.done]) <= t.locked
    && var r := Attempt(View(b, t.rows, t.written).balances, t.ctx, t.Ops()[t.done]);
    && r.Ok?
    && t' == t.(done := t.done + 1, rows := t.rows + r.value.rows, written := Written(t.written, r.value.write))
  }

  predicate Reversible(rows: seq<Row>, i: nat) { forall j | 0 <= j < |rows| :: rows[j].reversalOf != Some(i) }

  /** The once-reversed index: no row to be undone has a reversal in the log. */
  predicate IndexAdmits(rows: seq<Row>, undo: seq<Op>) {
    forall k | 0 <= k < |undo| && undo[k].Undo? :: Reversible(rows, undo[k].target)
  }

  ghost predicate Next(s: System, e: Event, s': System) {
    match e
    case Begin(id, ctx, request) =>
      && id !in s.txs && InvoiceOk(s.books.balances, ctx)
      && s' == s.(txs := s.txs[id := Fresh(s.books, ctx, request)])
    case Read(id) =>
      && id in s.txs && NextRead(s.books, s.txs[id]).Some?
      && s' == s.(txs := s.txs[id := NextRead(s.books, s.txs[id]).value])
    case Lock(id, key) =>
      && id in s.txs && Free(s, key, id)
      && s' == s.(txs := s.txs[id := s.txs[id].(locked := s.txs[id].locked + {key})])
    case Perform(id) =>
      && id in s.txs && id in s'.txs
      && Performed(s.books, s.txs[id], s'.txs[id])
      && s' == s.(txs := s.txs[id := s'.txs[id]])
    case Commit(id) =>
      && id in s.txs
      && var t := s.txs[id];
      && t.stage.Settling? && t.done == |t.Ops()| && IndexAdmits(s.books.rows, t.undo)
      && s' == System(View(s.books, t.rows, t.written), s.txs - {id})
    case Abort(id) =>
      id in s.txs && s' == s.(txs := s.txs - {id})
  }

  // ---------------------------------------------------------------- the invariant

  /** Nothing is decided before it is read. */
  predicate StageOk(t: Tx) {
    && (t.stage.Posting? || t.stage.Settling? || t.undo == [])
    && (t.stage.Settling? || t.tail == [])
  }

  ghost predicate Running(b: Books, t: Tx) {
    && InvoiceOk(b.balances, t.ctx) && StageOk(t) && t.done <= |t.Ops()|
    && Run(b, t.ctx, t.Ops()[..t.done]) == Ok(View(b, t.rows, t.written))
    && t.written.Keys <= t.locked
    && (forall i | 0 <= i < t.done :: Touches(t.ctx, t.Ops()[i]) <= t.locked)
  }

  ghost predicate Exclusive(s: System) {
    forall i, j | i in s.txs && j in s.txs && i != j :: s.txs[i].locked !! s.txs[j].locked
  }

  ghost predicate AllRunning(s: System) { forall id | id in s.txs :: Running(s.books, s.txs[id]) }

  /** What every interleaving keeps: each transaction is part-way through its operations on the books as they are NOW. */
  ghost predicate LockInv(s: System) {
    IdsUnique(s.books.balances) && Backed(s.books) && Exclusive(s) && AllRunning(s)
  }

  // ---------------------------------------------------------------- locality

  ghost predicate AgreeOn(x: Balances, y: Balances, keys: set<Key>) {
    forall k | k in keys :: (k in x <==> k in y) && (k in x ==> x[k] == y[k])
  }

  lemma {:induction false} AttemptLocal(x: Balances, y: Balances, ctx: Context, op: Op)
    requires AgreeOn(x, y, Touches(ctx, op))
    ensures Attempt(x, ctx, op) == Attempt(y, ctx, op)
    ensures Attempt(x, ctx, op).Ok? && Attempt(x, ctx, op).value.write.Some? ==>
      Attempt(x, ctx, op).value.write.value.0 in Touches(ctx, op)
  {
    match op
    case Undo(_, row, _) => if row.bill.id != ctx.bill.id { assert row.bill in Touches(ctx, op); }
    case Post(line, _, _) => assert line.Credit() in Touches(ctx, op);
    case Settle(_) => assert ctx.bill in Touches(ctx, op);
  }

  lemma {:induction false} ApplyView(b: Books, rows: seq<Row>, written: map<Key, int>, e: Effect)
    ensures Apply(View(b, rows, written), e) == View(b, rows + e.rows, Written(written, e.write))
  {
  }

  /** The same operations on books that agree on every balance touched have the same effect. */
  lemma {:induction false} RunsAlike(a: Books, c: Books, ctx: Context, ops: seq<Op>, keys: set<Key>)
    returns (rows: seq<Row>, written: map<Key, int>)
    requires Run(a, ctx, ops).Ok? && AgreeOn(a.balances, c.balances, keys)
    requires forall i | 0 <= i < |ops| :: Touches(ctx, ops[i]) <= keys
    ensures written.Keys <= keys
    ensures Run(a, ctx, ops) == Ok(View(a, rows, written))
    ensures Run(c, ctx, ops) == Ok(View(c, rows, written))
  {
    if ops == [] {
      rows, written := [], map[];
      assert View(a, [], map[]) == a && View(c, [], map[]) == c;
    } else {
      var n := |ops| - 1;
      var rows', written' := RunsAlike(a, c, ctx, ops[..n], keys);
      rows, written := OneAlike(a, c, ctx, ops[n], keys, rows', written');
    }
  }

  lemma {:induction false} OneAlike(a: Books, c: Books, ctx: Context, op: Op, keys: set<Key>,
                                    before: seq<Row>, was: map<Key, int>)
    returns (rows: seq<Row>, written: map<Key, int>)
    requires AgreeOn(a.balances, c.balances, keys) && Touches(ctx, op) <= keys && was.Keys <= keys
    requires Do(View(a, before, was), ctx, op).Ok?
    ensures written.Keys <= keys
    ensures Do(View(a, before, was), ctx, op) == Ok(View(a, rows, written))
    ensures Do(View(c, before, was), ctx, op) == Ok(View(c, rows, written))
  {
    AttemptLocal(Overlay(a.balances, was), Overlay(c.balances, was), ctx, op);
    var e := Attempt(Overlay(a.balances, was), ctx, op).value;
    rows, written := before + e.rows, Written(was, e.write);
    ApplyView(a, before, was, e);
    ApplyView(c, before, was, e);
  }

  /** Another transaction's commit leaves a run in progress exactly where it was. */
  lemma {:induction false} RunFramed(a: Books, c: Books, t: Tx)
    requires Running(a, t) && AgreeOn(a.balances, c.balances, t.locked) && InvoiceOk(c.balances, t.ctx)
    ensures Running(c, t)
  {
    var rows, written := RunsAlike(a, c, t.ctx, t.Ops()[..t.done], t.locked);
    assert rows == (a.rows + rows)[|a.rows|..] == (a.rows + t.rows)[|a.rows|..] == t.rows;
    assert Overlay(c.balances, written) == Overlay(c.balances, t.written) by {
      forall k | k in c.balances ensures Overlay(c.balances, written)[k] == Overlay(c.balances, t.written)[k] {
        if k in t.locked {
          assert Overlay(a.balances, written)[k] == Overlay(a.balances, t.written)[k];
        }
      }
    }
  }

  // ---------------------------------------------------------------- steps keep the invariant

  lemma {:induction false} PerformRuns(b: Books, t: Tx, t': Tx)
    requires Performed(b, t, t') && t.written.Keys <= t.locked
    requires Run(b, t.ctx, t.Ops()[..t.done]) == Ok(View(b, t.rows, t.written))
    ensures Run(b, t'.ctx, t'.Ops()[..t'.done]) == Ok(View(b, t'.rows, t'.written))
    ensures t'.written.Keys <= t'.locked
  {
    var view := View(b, t.rows, t.written);
    var op := t.Ops()[t.done];
    assert t.Ops()[..t.done + 1][..t.done] == t.Ops()[..t.done];
    ApplyView(b, t.rows, t.written, Attempt(view.balances, t.ctx, op).value);
    AttemptLocal(view.balances, view.balances, t.ctx, op);
  }

  lemma {:induction false} PerformKeeps(b: Books, t: Tx, t': Tx)
    requires Running(b, t) && Performed(b, t, t')
    ensures Running(b, t')
  {
    PerformRuns(b, t, t');
    assert t'.Ops() == t.Ops() && StageOk(t');
  }

  // ---------------------------------------------------------------- every interleaving

  lemma {:induction false} FreshRuns(b: Books, t: Tx)
    requires StageOk(t) && t.done == 0 && t.rows == [] && t.written == map[] && InvoiceOk(b.balances, t.ctx)
    ensures Running(b, t)
  {
    assert t.Ops()[..0] == [] && View(b, [], map[]) == b;
  }

  lemma {:induction false} CommitRuns(b: Books, t: Tx)
    requires Running(b, t) && t.done == |t.Ops()|
    ensures Run(b, t.ctx, t.Ops()) == Ok(View(b, t.rows, t.written))
  {
    assert t.Ops()[..t.done] == t.Ops();
  }

  /** A commit writes nothing that another transaction has locked. */
  lemma {:induction false} CommitFrames(b: Books, u: Tx, t: Tx)
    requires Running(b, u) && u.done == |u.Ops()| && Running(b, t) && u.locked !! t.locked
    ensures Running(View(b, u.rows, u.written), t)
  {
    var b' := View(b, u.rows, u.written);
    CommitRuns(b, u);
    RunFrame(b, u.ctx, u.Ops());
    RunFramed(b, b', t);
  }

  lemma {:induction false} BeginKeeps(s: System, id: nat, ctx: Context, request: Option<seq<Line>>, s': System)
    requires LockInv(s) && Next(s, Begin(id, ctx, request), s')
    ensures LockInv(s')
  {
    FreshRuns(s.books, s'.txs[id]);
  }

  /** What is read later adds operations after those carried out. */
  lemma {:induction false} ReadRuns(b: Books, t: Tx)
    requires Running(b, t) && NextRead(b, t).Some?
    ensures Running(b, NextRead(b, t).value)
  {
    var t' := NextRead(b, t).value;
    assert t'.Ops()[..t.done] == t.Ops()[..t.done];
    forall i | 0 <= i < t.done ensures t'.Ops()[i] == t.Ops()[i] {
      assert t'.Ops()[..t.done][i] == t.Ops()[..t.done][i];
    }
  }

  lemma {:induction false} ReplaceTx(s: System, id: nat, t: Tx)
    requires LockInv(s) && id in s.txs && Running(s.books, t) && t.locked == s.txs[id].locked
    ensures LockInv(s.(txs := s.txs[id := t]))
  {
  }

  lemma {:induction false} ReadLocks(b: Books, t: Tx)
    requires NextRead(b, t).Some?
    ensures NextRead(b, t).value.locked == t.locked
  {
  }

  lemma {:induction false} ReadKeeps(s: System, id: nat, s': System)
    requires LockInv(s) && Next(s, Read(id), s')
    ensures LockInv(s')
  {
    assert Running(s.books, s.txs[id]);
    ReadLocks(s.books, s.txs[id]);
    ReadRuns(s.books, s.txs[id]);
    ReplaceTx(s, id, s'.txs[id]);
  }

  lemma {:induction false} LockKeeps(s: System, id: nat, key: Key, s': System)
    requires LockInv(s) && Next(s, Lock(id, key), s')
    ensures LockInv(s')
  {
    assert Running(s.books, s.txs[id]);
    assert Running(s.books, s'.txs[id]);
  }

  lemma {:induction false} PerformStep(s: System, id: nat, s': System)
    requires LockInv(s) && Next(s, Perform(id), s')
    ensures LockInv(s')
  {
    assert Running(s.books, s.txs[id]);
    PerformKeeps(s.books, s.txs[id], s'.txs[id]);
  }

  lemma {:induction false} CommitStep(s: System, id: nat, s': System)
    requires LockInv(s) && Next(s, Commit(id), s')
    ensures LockInv(s')
  {
    var t := s.txs[id];
    assert Running(s.books, t);
    CommitRuns(s.books, t);
    RunFrame(s.books, t.ctx, t.Ops());
    RunBacked(s.books, t.ctx, t.Ops());
    forall other | other in s'.txs ensures Running(s'.books, s'.txs[other]) {
      assert Running(s.books, s.txs[other]);
      CommitFrames(s.books, t, s.txs[other]);
    }
  }

  /** Every step of any interleaving keeps the lock invariant; only a commit changes the books. */
  lemma {:induction false} StepKeepsLocks(s: System, e: Event, s': System)
    requires LockInv(s) && Next(s, e, s')
    ensures LockInv(s')
    ensures !e.Commit? ==> s'.books == s.books
  {
    match e {
      case Begin(id, ctx, request) => BeginKeeps(s, id, ctx, request, s');
      case Read(id) => ReadKeeps(s, id, s');
      case Lock(id, key) => LockKeeps(s, id, key, s');
      case Perform(id) => PerformStep(s, id, s');
      case Commit(id) => CommitStep(s, id, s');
      case Abort(id) =>
    }
  }

  // ---------------------------------------------------------------- whole runs

  ghost predicate IsRun(states: seq<System>, events: seq<Event>) {
    |states| == |events| + 1 && forall i | 0 <= i < |events| :: Next(states[i], events[i], states[i + 1])
  }

  ghost predicate Starts(s: System) { BooksInv(s.books) && s.txs == map[] }

  lemma {:induction false} RunKeepsLocks(states: seq<System>, events: seq<Event>)
    requires IsRun(states, events) && Starts(states[0])
    ensures LockInv(states[|events|])
  {
    if events != [] {
      var n := |events| - 1;
      assert IsRun(states[..n + 1], events[..n]);
      RunKeepsLocks(states[..n + 1], events[..n]);
      assert Next(states[n], events[n], states[n + 1]);
      StepKeepsLocks(states[n], events[n], states[n + 1]);
    }
  }

  lemma {:induction false} CommitConserves(s: System, e: Event, s': System, c: Key)
    requires LockInv(s) && Next(s, e, s') && OnSide(s.books.balances, c, CR)
    ensures OnSide(s'.books.balances, c, CR)
    ensures s'.books.balances[c].alloc - s.books.balances[c].alloc == Signed(s'.books.rows, c) - Signed(s.books.rows, c)
  {
    if e.Commit? {
      var t := s.txs[e.id];
      assert Running(s.books, t);
      CommitRuns(s.books, t);
      RunFrame(s.books, t.ctx, t.Ops());
      assert IdIsKey(c, t.ctx.bill);
      RunConserves(s.books, t.ctx, t.Ops(), c);
    }
  }

  /**
   Over any interleaving at all, two transactions inside one invoice included, each credit's allocation moves
   by exactly the signed sum of its rows, and no commit leaves it allocated beyond its face.
   */
  lemma {:induction false} CreditsConserved(states: seq<System>, events: seq<Event>, c: Key)
    requires IsRun(states, events) && Starts(states[0]) && OnSide(states[0].books.balances, c, CR)
    ensures var b, b' := states[0].books, states[|events|].books;
      && OnSide(b'.balances, c, CR)
      && b'.balances[c].alloc - b.balances[c].alloc == Signed(b'.rows, c) - Signed(b.rows, c)
      && 0 <= b'.balances[c].alloc <= b'.balances[c].face
  {
    RunKeepsLocks(states, events);
    assert BackedAt(states[|events|].books, c);
    if events != [] {
      var n := |events| - 1;
      assert IsRun(states[..n + 1], events[..n]);
      CreditsConserved(states[..n + 1], events[..n], c);
      RunKeepsLocks(states[..n + 1], events[..n]);
      assert Next(states[n], events[n], states[n + 1]);
      CommitConserves(states[n], events[n], states[n + 1], c);
    }
  }
}
