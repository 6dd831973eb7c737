/**
 What every interleaving keeps of the set-off log, two transactions inside one invoice included.  The reads of
 a sync are spread over time and hold nothing still, but rows are only appended and a commit that reverses a
 row twice is refused (ux_abj_reversal, named in src/common/posting/bill-adjustment.helper.ts).  So reversals
 stay exact and single, pairs are undone together, and a credit moves by exactly what comes to stand against it.
 */
module SetOffStanding {
  import opened Prelude
  import opened SetOff
  import opened SetOffLog
  import opened SetOffLaws
  import opened SetOffSync
  import opened SetOffRuns

  /** All of the log invariant but one pair per credit and the order of the row numbers. */
  ghost predicate PairsInv(rows: seq<Row>) {
    ReversalsExact(rows) && ReversedOnce(rows) && Paired(rows) && TwinsAgree(rows)
  }

  // ---------------------------------------------------------------- what was picked to be undone

  ghost predicate BothOrNeither(rows: seq<Row>, at: seq<nat>, i: nat) {
    i < |rows| && rows[i].reversalOf.None? && rows[i].side == CR ==> (i in at <==> i + 1 in at)
  }

  /** Plain rows of the log, none twice, and of each pair both rows or neither. */
  ghost predicate Picked(rows: seq<Row>, at: seq<nat>) {
    && Ascends(at)
    && (forall k | 0 <= k < |at| :: at[k] < |rows| && rows[at[k]].reversalOf.None?)
    && (forall i: nat {:trigger BothOrNeither(rows, at, i)} :: BothOrNeither(rows, at, i))
  }

  lemma {:induction false} PlainIn(rows: seq<Row>, billId: nat, both: bool, n: nat, i: nat)
    requires n <= |rows|
    ensures i in PlainIndices(rows, billId, both, n)
       <==> i < n && Concerns(rows[i], billId, both) && rows[i].reversalOf.None?
  {
    if n > 0 { PlainIn(rows, billId, both, n - 1, i); }
  }

  lemma {:induction false} PlainAscend(rows: seq<Row>, billId: nat, both: bool, n: nat)
    requires n <= |rows|
    ensures Ascends(PlainIndices(rows, billId, both, n))
  {
    if n > 0 {
      PlainAscend(rows, billId, both, n - 1);
      AscendsOn(PlainIndices(rows, billId, both, n - 1), n - 1);
    }
  }

  lemma {:induction false} UnreversedIn(rows: seq<Row>, found: seq<nat>, i: nat)
    ensures i in Unreversed(rows, found) <==> i in found && i < |rows| && LiveAt(rows, i)
  {
    if found != [] { UnreversedIn(rows, found[..|found| - 1], i); }
  }

  lemma {:induction false} UnreversedAscend(rows: seq<Row>, found: seq<nat>)
    requires Ascends(found)
    ensures Ascends(Unreversed(rows, found))
  {
    if found != [] {
      var n := |found| - 1;
      var rest := Unreversed(rows, found[..n]);
      UnreversedAscend(rows, found[..n]);
      forall k | 0 <= k < |rest| ensures rest[k] < found[n] {
        UnreversedIn(rows, found[..n], rest[k]);
      }
      AscendsOn(rest, found[n]);
    }
  }

  /** The rows of both sides: a pair concerns the invoice with both its rows or with neither. */
  lemma {:induction false} PlainPicked(b: Books, ctx: Context, at: seq<nat>)
    requires Paired(b.rows) && KeysInv(b) && InvoiceOk(b.balances, ctx)
    requires at == PlainIndices(b.rows, ctx.bill.id, true, |b.rows|)
    ensures Picked(b.rows, at)
  {
    PlainAscend(b.rows, ctx.bill.id, true, |b.rows|);
    forall k | 0 <= k < |at| ensures at[k] < |b.rows| && b.rows[at[k]].reversalOf.None? {
      PlainIn(b.rows, ctx.bill.id, true, |b.rows|, at[k]);
    }
    forall i: nat ensures BothOrNeither(b.rows, at, i) {
      if i < |b.rows| && b.rows[i].reversalOf.None? && b.rows[i].side == CR {
        TwinAfter(b.rows, i);
        InvoiceConcern(b, ctx, i);
        InvoiceConcern(b, ctx, i + 1);
        PlainIn(b.rows, ctx.bill.id, true, |b.rows|, i);
        PlainIn(b.rows, ctx.bill.id, true, |b.rows|, i + 1);
      }
    }
  }

  lemma {:induction false} UnreversedPicked(rows: seq<Row>, found: seq<nat>)
    requires Picked(rows, found) && Paired(rows) && TwinsAgree(rows)
    ensures Picked(rows, Unreversed(rows, found))
  {
    var at := Unreversed(rows, found);
    UnreversedAscend(rows, found);
    forall k | 0 <= k < |at| ensures at[k] < |rows| && rows[at[k]].reversalOf.None? {
      UnreversedIn(rows, found, at[k]);
    }
    forall i: nat ensures BothOrNeither(rows, at, i) {
      if i < |rows| && rows[i].reversalOf.None? && rows[i].side == CR {
        TwinAfter(rows, i);
        assert BothOrNeither(rows, found, i) && TwinsAgreeAt(rows, i);
        UnreversedIn(rows, found, i);
        UnreversedIn(rows, found, i + 1);
      }
    }
  }

  /** What was picked stays well picked while rows are appended. */
  lemma {:induction false} PickedStays(rows: seq<Row>, rows': seq<Row>, at: seq<nat>)
    requires Picked(rows, at) && Paired(rows) && rows <= rows'
    ensures Picked(rows', at)
  {
    forall i: nat ensures BothOrNeither(rows', at, i) {
      if i < |rows| {
        assert BothOrNeither(rows, at, i) && rows'[i] == rows[i];
      } else {
        assert i !in at && i + 1 !in at;
      }
    }
  }

  // ---------------------------------------------------------------- what a transaction intends

  ghost function Targets(undo: seq<Op>): seq<nat>
    requires forall k | 0 <= k < |undo| :: undo[k].Undo?
  {
    seq(|undo|, k requires 0 <= k < |undo| => undo[k].target)
  }

  ghost predicate AllUndo(undo: seq<Op>) { forall k | 0 <= k < |undo| :: undo[k].Undo? }

  /** Undo operations that carry the very rows they name, well picked. */
  ghost predicate Undoes(rows: seq<Row>, undo: seq<Op>) {
    && AllUndo(undo) && Picked(rows, Targets(undo))
    && forall k | 0 <= k < |undo| :: undo[k].target < |rows| && undo[k].row == rows[undo[k].target]
  }

  ghost predicate Positive(lines: seq<Line>) { forall k | 0 <= k < |lines| :: 0 < lines[k].amount }

  ghost predicate PostsAndSettles(tail: seq<Op>, lines: seq<Line>, no: nat, adjusted: int) {
    Positive(lines) && tail == PostOps(lines, no) + [Settle(adjusted)]
  }

  ghost predicate Ends(tail: seq<Op>) {
    tail == [] || exists lines, no, adjusted :: PostsAndSettles(tail, lines, no, adjusted)
  }

  ghost predicate Honest(rows: seq<Row>, t: Tx) {
    && Undoes(rows, t.undo) && Ends(t.tail)
    && (t.stage.Checking? ==> Picked(rows, t.stage.found))
    && (t.stage.Numbering? ==> Picked(rows, t.stage.at))
  }

  lemma {:induction false} NothingYet(rows: seq<Row>)
    ensures Undoes(rows, []) && Ends([])
  {
    assert Targets([]) == [];
    forall i: nat ensures BothOrNeither(rows, [], i) { }
  }

  lemma {:induction false} UndoesPicked(rows: seq<Row>, at: seq<nat>, no: nat)
    requires Picked(rows, at)
    ensures Undoes(rows, UndoOps(rows, at, no))
  {
    var ops := UndoOps(rows, at, no);
    assert Targets(ops) == at;
  }

  lemma {:induction false} EndsSettled(adjusted: int)
    ensures Ends([Settle(adjusted)])
  {
    var none: seq<Line> := [];
    assert PostOps(none, 0) == [];
    assert PostsAndSettles([Settle(adjusted)], none, 0, adjusted);
  }

  lemma {:induction false} RequestedPositive(request: Option<seq<Line>>)
    ensures Positive(Requested(request))
  {
    if request.Some? { NormalizeMeaning(request.value); }
  }

  /** The first decision: nothing to undo yet, and at most one figure to settle. */
  lemma {:induction false} DecideHonest(rows: seq<Row>, t: Tx, live: seq<Line>)
    requires Honest(rows, t) && Decide(t, live).Some?
    ensures Honest(rows, Decide(t, live).value)
  {
    EndsSettled(Sum(live));
    NothingYet(rows);
  }

  lemma {:induction false} PostingHonest(b: Books, t: Tx)
    requires Honest(b.rows, t) && t.stage.Posting? && NextRead(b, t).Some?
    ensures Honest(b.rows, NextRead(b, t).value)
  {
    var requested := Requested(t.request);
    RequestedPositive(t.request);
    var no := HighestRowNo(b.rows + t.rows, t.ctx.bill.id) + 1;
    assert PostsAndSettles(PostPhase(b.rows + t.rows, t.ctx.bill.id, requested), requested, no, Sum(requested));
  }

  /** The next read leaves the transaction honest, and no row it has picked is out of reach. */
  lemma {:induction false} NextReadHonest(b: Books, t: Tx)
    requires PairsInv(b.rows) && KeysInv(b) && InvoiceOk(b.balances, t.ctx)
    requires Honest(b.rows, t)
    ensures t.stage.Numbering? ==> NextRead(b, t).Some?
    ensures NextRead(b, t).Some? ==> Honest(b.rows, NextRead(b, t).value)
  {
    match t.stage
    case Looking(found) => if NextRead(b, t).Some? { DecideHonest(b.rows, t, LinesAt(b.rows, Unreversed(b.rows, found))); }
    case Finding => PlainPicked(b, t.ctx, PlainIndices(b.rows, t.ctx.bill.id, true, |b.rows|));
    case Checking(found) => UnreversedPicked(b.rows, found);
    case Numbering(at) => UndoesPicked(b.rows, at, HighestRowNo(b.rows, t.ctx.bill.id) + 1);
    case Posting => if NextRead(b, t).Some? { PostingHonest(b, t); }
    case Settling =>
  }

  lemma {:induction false} HonestStays(rows: seq<Row>, rows': seq<Row>, t: Tx)
    requires Honest(rows, t) && Paired(rows) && rows <= rows'
    ensures Honest(rows', t)
  {
    PickedStays(rows, rows', Targets(t.undo));
    if t.stage.Checking? { PickedStays(rows, rows', t.stage.found); }
    if t.stage.Numbering? { PickedStays(rows, rows', t.stage.at); }
  }

  // ---------------------------------------------------------------- what a commit writes

  /** Rows that undo what was picked, none of it reversed before. */
  ghost predicate UndoesOnce(rows: seq<Row>, at: seq<nat>, undone: seq<Row>) {
    && Picked(rows, at) && |undone| == |at|
    && forall k | 0 <= k < |at| :: LiveAt(rows, at[k]) && undone[k] == UndoRow(at[k], rows[at[k]], undone[k].rowNo)
  }

  lemma {:induction false} AdmittedOnce(rows: seq<Row>, undo: seq<Op>)
    requires Undoes(rows, undo) && IndexAdmits(rows, undo)
    ensures UndoesOnce(rows, Targets(undo), UndoRows(undo))
  {
    forall k | 0 <= k < |undo| ensures LiveAt(rows, undo[k].target) {
      assert Targets(undo)[k] == undo[k].target;
      assert Reversible(rows, undo[k].target);
    }
  }

  lemma {:induction false} UndoKeepsPairs(rows: seq<Row>, at: seq<nat>, undone: seq<Row>)
    requires PairsInv(rows) && UndoesOnce(rows, at, undone)
    ensures PairsInv(rows + undone)
  {
    UndoneOnce(rows, at, undone);
    AfterUndo(rows, at, undone);
    var all := rows + undone;
    forall i | 0 <= i < |all| ensures PairedAt(all, i) {
      if i < |rows| { assert PairedAt(rows, i); }
    }
    forall i | 0 <= i < |all| - 1 ensures TwinsAgreeAt(all, i) {
      if all[i].reversalOf.None? && all[i].side == CR {
        assert i < |rows| && all[i] == rows[i];
        TwinAfter(rows, i);
        assert TwinsAgreeAt(rows, i) && BothOrNeither(rows, at, i);
      }
    }
  }

  lemma {:induction false} UndoKeepsKeys(b: Books, at: seq<nat>, undone: seq<Row>)
    requires KeysInv(b) && UndoesOnce(b.rows, at, undone)
    ensures KeysInv(b.(rows := b.rows + undone))
  {
    var rows := b.rows + undone;
    forall i | 0 <= i < |rows| ensures RowSides(b.balances, rows[i]) {
      if i < |b.rows| { assert RowSides(b.balances, b.rows[i]); }
      else { assert RowSides(b.balances, b.rows[at[i - |b.rows|]]); }
    }
  }

  lemma {:induction false} PostKeepsPairs(b: Books, ctx: Context, lines: seq<Line>, no: nat, posted: seq<Row>)
    requires PairsInv(b.rows) && KeysInv(b) && InvoiceOk(b.balances, ctx)
    requires PostedRows(b.balances, ctx, lines, no, posted) && Positive(lines)
    requires forall k | 0 <= k < |lines| :: OnSide(b.balances, lines[k].Credit(), CR)
    ensures PairsInv(b.rows + posted) && KeysInv(b.(rows := b.rows + posted))
  {
    PostReversals(b, ctx, lines, no, posted);
    PostPaired(b.rows, b.balances, ctx, lines, no, posted);
    var rows := b.rows + posted;
    forall i | 0 <= i < |rows| ensures RowSides(b.balances, rows[i]) {
      if |b.rows| <= i { PostedIs(b.balances, ctx, lines, no, posted, i - |b.rows|); }
      else { assert RowSides(b.balances, b.rows[i]); }
    }
  }

  lemma {:induction false} TailKeeps(b: Books, ctx: Context, tail: seq<Op>, b': Books)
    requires PairsInv(b.rows) && KeysInv(b) && InvoiceOk(b.balances, ctx)
    requires Ends(tail) && Run(b, ctx, tail) == Ok(b')
    ensures PairsInv(b'.rows) && KeysInv(b')
  {
    if tail != [] {
      var lines, no, adjusted :| PostsAndSettles(tail, lines, no, adjusted);
      var ops := PostOps(lines, no);
      var after := SettledPart(b, ctx, ops, adjusted, b');
      var posted := PostedPart(b, b, ctx, lines, no, ops, after);
      PostKeepsPairs(b, ctx, lines, no, posted);
      KeysInvSame(b.(rows := b'.rows), b'.balances);
    }
  }

  lemma {:induction false} UndoKeeps(b: Books, ctx: Context, undo: seq<Op>, mid: Books)
    requires PairsInv(b.rows) && KeysInv(b)
    requires Undoes(b.rows, undo) && IndexAdmits(b.rows, undo) && Run(b, ctx, undo) == Ok(mid)
    ensures PairsInv(mid.rows) && KeysInv(mid) && SameButAlloc(b.balances, mid.balances)
  {
    AdmittedOnce(b.rows, undo);
    RunUndos(b, ctx, undo);
    UndoKeepsPairs(b.rows, Targets(undo), UndoRows(undo));
    UndoKeepsKeys(b, Targets(undo), UndoRows(undo));
    RunFrame(b, ctx, undo);
    KeysInvSame(b.(rows := mid.rows), mid.balances);
  }

  /** Whatever was committed since it read, what an honest transaction commits keeps reversals exact and pairs together. */
  lemma {:induction false} CommitKeepsPairs(b: Books, t: Tx)
    requires PairsInv(b.rows) && KeysInv(b) && Running(b, t) && Honest(b.rows, t)
    requires t.done == |t.Ops()| && IndexAdmits(b.rows, t.undo)
    ensures var b' := View(b, t.rows, t.written);
      PairsInv(b'.rows) && KeysInv(b') && b.rows <= b'.rows
  {
    CommitRuns(b, t);
    RunConcat(b, t.ctx, t.undo, t.tail);
    var mid := Run(b, t.ctx, t.undo).value;
    UndoKeeps(b, t.ctx, t.undo, mid);
    TailKeeps(mid, t.ctx, t.tail, View(b, t.rows, t.written));
  }

  // ---------------------------------------------------------------- every run

  ghost predicate AllHonest(s: System) { forall id | id in s.txs :: Honest(s.books.rows, s.txs[id]) }

  ghost predicate StandingInv(s: System) {
    LockInv(s) && PairsInv(s.books.rows) && KeysInv(s.books) && AllHonest(s)
  }

  lemma {:induction false} OneHonest(s: System, id: nat, t: Tx)
    requires AllHonest(s) && Honest(s.books.rows, t)
    ensures AllHonest(s.(txs := s.txs[id := t]))
  {
  }

  lemma {:induction false} CommitHonest(s: System, id: nat, s': System)
    requires StandingInv(s) && Next(s, Commit(id), s')
    ensures PairsInv(s'.books.rows) && KeysInv(s'.books) && AllHonest(s')
  {
    var t := s.txs[id];
    assert Running(s.books, t) && Honest(s.books.rows, t);
    CommitKeepsPairs(s.books, t);
    forall other | other in s'.txs ensures Honest(s'.books.rows, s'.txs[other]) {
      assert Honest(s.books.rows, s.txs[other]);
      HonestStays(s.books.rows, s'.books.rows, s.txs[other]);
    }
  }

  lemma {:induction false} ReadHonest(s: System, id: nat, s': System)
    requires StandingInv(s) && Next(s, Read(id), s')
    ensures AllHonest(s')
  {
    assert Running(s.books, s.txs[id]) && Honest(s.books.rows, s.txs[id]);
    NextReadHonest(s.books, s.txs[id]);
    OneHonest(s, id, s'.txs[id]);
  }

  lemma {:induction false} PerformHonest(s: System, id: nat, s': System)
    requires AllHonest(s) && Next(s, Perform(id), s')
    ensures AllHonest(s')
  {
    assert Honest(s.books.rows, s.txs[id]);
    OneHonest(s, id, s'.txs[id]);
  }

  lemma {:induction false} BeginHonest(s: System, id: nat, ctx: Context, request: Option<seq<Line>>, s': System)
    requires AllHonest(s) && Next(s, Begin(id, ctx, request), s')
    ensures AllHonest(s')
  {
    NothingYet(s.books.rows);
    OneHonest(s, id, s'.txs[id]);
  }

  lemma {:induction false} LockHonest(s: System, id: nat, key: Key, s': System)
    requires AllHonest(s) && Next(s, Lock(id, key), s')
    ensures AllHonest(s')
  {
    assert Honest(s.books.rows, s.txs[id]);
    OneHonest(s, id, s'.txs[id]);
  }

  /** Every step of any interleaving keeps reversals exact and single and the two rows of a pair together. */
  lemma {:induction false} StepKeepsStanding(s: System, e: Event, s': System)
    requires StandingInv(s) && Next(s, e, s')
    ensures StandingInv(s')
  {
    StepKeepsLocks(s, e, s');
    match e {
      case Begin(id, ctx, request) => BeginHonest(s, id, ctx, request, s');
      case Read(id) => ReadHonest(s, id, s');
      case Lock(id, key) => LockHonest(s, id, key, s');
      case Perform(id) => PerformHonest(s, id, s');
      case Commit(id) => CommitHonest(s, id, s');
      case Abort(id) =>
    }
  }

  lemma {:induction false} RunKeepsStanding(states: seq<System>, events: seq<Event>)
    requires IsRun(states, events) && Starts(states[0])
    ensures StandingInv(states[|events|])
  {
    if events != [] {
      var n := |events| - 1;
      assert IsRun(states[..n + 1], events[..n]);
      RunKeepsStanding(states[..n + 1], events[..n]);
      assert Next(states[n], events[n], states[n + 1]);
      StepKeepsStanding(states[n], events[n], states[n + 1]);
    }
  }

  /**
   Over any interleaving at all, each credit's allocation moves by exactly the change in the sum of the amounts
   that stand against it over all invoices.
   */
  lemma {:induction false} CreditsStand(states: seq<System>, events: seq<Event>, c: Key)
    requires IsRun(states, events) && Starts(states[0]) && OnSide(states[0].books.balances, c, CR)
    ensures var b, b' := states[0].books, states[|events|].books;
      && OnSide(b'.balances, c, CR)
      && b'.balances[c].alloc - b.balances[c].alloc == Standing(b'.rows, c, |b'.rows|) - Standing(b.rows, c, |b.rows|)
  {
    CreditsConserved(states, events, c);
    RunKeepsStanding(states, events);
    SignedIsStanding(states[0].books.rows, c);
    SignedIsStanding(states[|events|].books.rows, c);
  }
}
