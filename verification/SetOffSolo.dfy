/**
 A transaction on its own.  When nobody else holds a lock and the sync would succeed on the books as they are, it
 can read, lock, perform and commit all of it; nothing in the protocol stands in its own way.
 */
module SetOffSolo {
  import opened SetOff
  import opened SetOffLog
  import opened SetOffSync
  import opened SetOffRuns
  import opened SetOffSerial

  // ---------------------------------------------------------------- putting runs together

  /** A run from one state to another. */
  ghost predicate Leads(s: System, states: seq<System>, events: seq<Event>, s': System) {
    IsRun(states, events) && states[0] == s && states[|events|] == s'
  }

  lemma {:induction false} OneStep(s: System, e: Event, s': System)
    requires Next(s, e, s')
    ensures Leads(s, [s, s'], [e], s')
  {
  }

  lemma {:induction false} Chain(
    s: System, states: seq<System>, events: seq<Event>, mid: System, states': seq<System>, events': seq<Event>, s': System)
    requires Leads(s, states, events, mid) && Leads(mid, states', events', s')
    ensures Leads(s, states + states'[1..], events + events', s')
  {
    var all, es := states + states'[1..], events + events';
    forall i | 0 <= i < |es| ensures Next(all[i], es[i], all[i + 1]) {
      if i < |events| {
        assert Next(states[i], events[i], states[i + 1]);
      } else {
        var k := i - |events|;
        assert Next(states'[k], events'[k], states'[k + 1]);
        assert all[i] == states'[k] && all[i + 1] == states'[k + 1];
      }
    }
  }

  // ---------------------------------------------------------------- one transaction to its end

  /** Nobody else holds a lock. */
  ghost predicate Alone(s: System, id: nat) { forall other | other in s.txs && other != id :: s.txs[other].locked == {} }

  ghost predicate NoBegin(events: seq<Event>) { forall i | 0 <= i < |events| :: !events[i].Begin? }

  ghost predicate SamePlan(t: Tx, t': Tx) {
    t'.ctx == t.ctx && t'.request == t.request && t'.stage == t.stage && t'.undo == t.undo && t'.tail == t.tail
  }

  lemma {:induction false} PrefixOk(b: Books, ctx: Context, ops: seq<Op>, n: nat)
    requires n <= |ops| && Run(b, ctx, ops).Ok?
    ensures Run(b, ctx, ops[..n]).Ok?
    decreases |ops| - n
  {
    if n == |ops| {
      assert ops[..n] == ops;
    } else {
      PrefixOk(b, ctx, ops, n + 1);
      assert ops[..n + 1][..n] == ops[..n];
    }
  }

  /** The next operation can be carried out once what it touches is locked. */
  lemma {:induction false} CanPerform(b: Books, t: Tx) returns (t': Tx)
    requires Running(b, t) && t.done < |t.Ops()| && Touches(t.ctx, t.Ops()[t.done]) <= t.locked
    requires Run(b, t.ctx, t.Ops()).Ok?
    ensures Performed(b, t, t') && Running(b, t') && t'.done == t.done + 1
    ensures SamePlan(t, t') && t'.locked == t.locked
  {
    PrefixOk(b, t.ctx, t.Ops(), t.done + 1);
    assert t.Ops()[..t.done + 1][..t.done] == t.Ops()[..t.done];
    var r := Attempt(View(b, t.rows, t.written).balances, t.ctx, t.Ops()[t.done]);
    t' := t.(done := t.done + 1, rows := t.rows + r.value.rows, written := Written(t.written, r.value.write));
    PerformKeeps(b, t, t');
  }

  /** The one row an operation touches; any row for an undo that touches none. */
  ghost function RowOf(ctx: Context, op: Op): Key {
    match op
    case Undo(_, row, _) => row.bill
    case Post(line, _, _) => line.Credit()
    case Settle(_) => ctx.bill
  }

  lemma {:induction false} LockRow(s: System, id: nat, key: Key, u: Tx)
    requires id in s.txs && Alone(s, id) && Running(s.books, s.txs[id])
    requires u == s.txs[id].(locked := s.txs[id].locked + {key})
    ensures Next(s, Lock(id, key), s.(txs := s.txs[id := u])) && Running(s.books, u)
  {
    assert u.Ops() == s.txs[id].Ops();
  }

  lemma {:induction false} PerformRow(mid: System, id: nat) returns (s': System)
    requires id in mid.txs && Running(mid.books, mid.txs[id]) && mid.txs[id].done < |mid.txs[id].Ops()|
    requires Touches(mid.txs[id].ctx, mid.txs[id].Ops()[mid.txs[id].done]) <= mid.txs[id].locked
    requires Run(mid.books, mid.txs[id].ctx, mid.txs[id].Ops()).Ok?
    ensures Next(mid, Perform(id), s') && id in s'.txs && s'.books == mid.books && s'.txs - {id} == mid.txs - {id}
    ensures Running(mid.books, s'.txs[id]) && s'.txs[id].done == mid.txs[id].done + 1 && SamePlan(mid.txs[id], s'.txs[id])
  {
    var t' := CanPerform(mid.books, mid.txs[id]);
    s' := mid.(txs := mid.txs[id := t']);
  }

  lemma {:induction false} TwoSteps(s: System, e: Event, mid: System, e': Event, s': System)
    requires Next(s, e, mid) && Next(mid, e', s')
    ensures Leads(s, [s, mid, s'], [e, e'], s')
  {
  }

  /** Locking what the next operation touches, and carrying it out. */
  lemma {:induction false} LockAndPerform(s: System, id: nat)
    returns (states: seq<System>, events: seq<Event>, s': System)
    requires id in s.txs && Alone(s, id) && Running(s.books, s.txs[id])
    requires s.txs[id].done < |s.txs[id].Ops()| && Run(s.books, s.txs[id].ctx, s.txs[id].Ops()).Ok?
    ensures Leads(s, states, events, s') && id in s'.txs && s'.books == s.books && s'.txs - {id} == s.txs - {id}
    ensures Running(s.books, s'.txs[id]) && s'.txs[id].done == s.txs[id].done + 1
    ensures SamePlan(s.txs[id], s'.txs[id]) && NoBegin(events)
  {
    var t := s.txs[id];
    var key := RowOf(t.ctx, t.Ops()[t.done]);
    var u := t.(locked := t.locked + {key});
    LockRow(s, id, key, u);
    var mid := s.(txs := s.txs[id := u]);
    assert u.Ops() == t.Ops() && mid.txs - {id} == s.txs - {id};
    s' := PerformRow(mid, id);
    TwoSteps(s, Lock(id, key), mid, Perform(id), s');
    states, events := [s, mid, s'], [Lock(id, key), Perform(id)];
  }

  /** Alone, a transaction whose operations succeed on the books as they are now can go through and commit. */
  lemma {:induction false} Finish(s: System, id: nat) returns (states: seq<System>, events: seq<Event>)
    requires id in s.txs && Alone(s, id) && Running(s.books, s.txs[id])
    requires Run(s.books, s.txs[id].ctx, s.txs[id].Ops()).Ok?
    requires s.txs[id].stage.Settling? && IndexAdmits(s.books.rows, s.txs[id].undo)
    ensures NoBegin(events)
    ensures Leads(s, states, events, System(Run(s.books, s.txs[id].ctx, s.txs[id].Ops()).value, s.txs - {id}))
    decreases |s.txs[id].Ops()| - s.txs[id].done
  {
    var t := s.txs[id];
    var end := System(Run(s.books, t.ctx, t.Ops()).value, s.txs - {id});
    if t.done == |t.Ops()| {
      CommitRuns(s.books, t);
      assert Next(s, Commit(id), end);
      OneStep(s, Commit(id), end);
      states, events := [s, end], [Commit(id)];
    } else {
      var states1, events1, mid := LockAndPerform(s, id);
      assert Alone(mid, id) by {
        forall other | other in mid.txs && other != id ensures mid.txs[other].locked == {} {
          assert (mid.txs - {id})[other] == (s.txs - {id})[other];
        }
      }
      var states2, events2 := Finish(mid, id);
      Chain(s, states1, events1, mid, states2, events2, end);
      states, events := states1 + states2[1..], events1 + events2;
    }
  }

  // ---------------------------------------------------------------- a whole sync alone

  lemma {:induction false} LookGoesOn(b: Books, t: Tx)
    requires t.stage.Looking? && Planned(b, t) && Sync(b, t.ctx, t.request).Ok?
    ensures NextRead(b, t).Some?
  {
    TwoReads(b.rows, t.ctx.bill.id, false, |b.rows|);
  }

  /** Nothing to carry out yet: the next thing is a read. */
  ghost predicate ReadsNext(t: Tx) { !t.stage.Settling? && (t.stage.Posting? ==> t.done == |t.undo|) }

  /** On books that have not changed since it began, a transaction can go on reading. */
  lemma {:induction false} CanRead(b: Books, t: Tx)
    requires Running(b, t) && Planned(b, t) && Sync(b, t.ctx, t.request).Ok? && ReadsNext(t)
    ensures NextRead(b, t).Some? && Planned(b, NextRead(b, t).value) && Running(b, NextRead(b, t).value)
  {
    if t.stage.Looking? { LookGoesOn(b, t); }
    NextReadPlanned(b, t);
    ReadRuns(b, t);
  }

  /** And what it has decided to undo can be undone. */
  lemma {:induction false} UndosRun(b: Books, t: Tx)
    requires StageOk(t) && t.stage.Posting? && Planned(b, t) && Sync(b, t.ctx, t.request).Ok?
    ensures Run(b, t.ctx, t.Ops()).Ok?
  {
    var requested := Requested(t.request);
    var rest := PostPhase(b.rows + UndoRows(t.undo), t.ctx.bill.id, requested);
    ChangeOps(b, t.ctx, t.request);
    assert ReplaceOps(b.rows, t.ctx, requested) == t.undo + rest && t.Ops() == t.undo;
    RunConcat(b, t.ctx, t.undo, rest);
  }

  lemma {:induction false} LiveReversible(rows: seq<Row>, i: nat)
    requires i < |rows| && LiveAt(rows, i)
    ensures Reversible(rows, i)
  {
  }

  /** The index admits what is to be undone on the books it was decided on. */
  lemma {:induction false} PhaseAdmitted(rows: seq<Row>, billId: nat)
    ensures IndexAdmits(rows, UndoPhase(rows, billId))
  {
    var undo, at := UndoPhase(rows, billId), LiveIndices(rows, billId, true, |rows|);
    LiveIndicesExact(rows, billId, true, |rows|);
    forall k | 0 <= k < |undo| && undo[k].Undo? ensures Reversible(rows, undo[k].target) {
      assert undo[k].target == at[k] && at[k] in at;
      LiveReversible(rows, at[k]);
    }
  }

  lemma {:induction false} SettlesAsSync(b: Books, t: Tx)
    requires t.stage.Settling? && Planned(b, t)
    ensures Sync(b, t.ctx, t.request) == Run(b, t.ctx, t.Ops()) && IndexAdmits(b.rows, t.undo)
  {
    PlannedIsPlan(b, t);
    PhaseAdmitted(b.rows, t.ctx.bill.id);
  }

  ghost function Ahead(t: Tx): nat {
    match t.stage
    case Looking(_) => 5
    case Finding => 4
    case Checking(_) => 3
    case Numbering(_) => 2
    case Posting => 1
    case Settling => 0
  }

  lemma {:induction false} ReadAhead(b: Books, t: Tx)
    requires NextRead(b, t).Some?
    ensures Ahead(NextRead(b, t).value) < Ahead(t)
    ensures NextRead(b, t).value.ctx == t.ctx && NextRead(b, t).value.request == t.request
  {
  }

  /** On its own, part-way along the plan of the books as they are now. */
  ghost predicate OnCourse(s: System, id: nat) {
    && id in s.txs && Alone(s, id) && Running(s.books, s.txs[id]) && Planned(s.books, s.txs[id])
    && Sync(s.books, s.txs[id].ctx, s.txs[id].request).Ok?
  }

  lemma {:induction false} ReadOn(s: System, id: nat) returns (s': System)
    requires OnCourse(s, id) && ReadsNext(s.txs[id])
    ensures Next(s, Read(id), s') && OnCourse(s', id) && Ahead(s'.txs[id]) < Ahead(s.txs[id])
    ensures s'.books == s.books && s'.txs - {id} == s.txs - {id}
    ensures s'.txs[id].ctx == s.txs[id].ctx && s'.txs[id].request == s.txs[id].request
  {
    CanRead(s.books, s.txs[id]);
    ReadAhead(s.books, s.txs[id]);
    s' := s.(txs := s.txs[id := NextRead(s.books, s.txs[id]).value]);
  }

  lemma {:induction false} UndoOn(s: System, id: nat) returns (states: seq<System>, events: seq<Event>, s': System)
    requires OnCourse(s, id) && s.txs[id].stage.Posting? && s.txs[id].done < |s.txs[id].undo|
    ensures Leads(s, states, events, s') && NoBegin(events) && OnCourse(s', id)
    ensures s'.books == s.books && s'.txs - {id} == s.txs - {id}
    ensures SamePlan(s.txs[id], s'.txs[id]) && s'.txs[id].done == s.txs[id].done + 1
  {
    UndosRun(s.books, s.txs[id]);
    states, events, s' := LockAndPerform(s, id);
    StillAlone(s, s', id);
  }

  lemma {:induction false} StillAlone(s: System, s': System, id: nat)
    requires Alone(s, id) && s'.txs - {id} == s.txs - {id}
    ensures Alone(s', id)
  {
    forall other | other in s'.txs && other != id ensures s'.txs[other].locked == {} {
      assert (s'.txs - {id})[other] == (s.txs - {id})[other];
    }
  }

  /** A run from here that ends with the one sync committed. */
  ghost predicate CarriesThrough(s: System, id: nat, states: seq<System>, events: seq<Event>) {
    && id in s.txs && NoBegin(events)
    && var r := Sync(s.books, s.txs[id].ctx, s.txs[id].request);
       r.Ok? && Leads(s, states, events, System(r.value, s.txs - {id}))
  }

  lemma {:induction false} GoOn(
    s: System, id: nat, states: seq<System>, events: seq<Event>, s': System, states': seq<System>, events': seq<Event>)
    requires Leads(s, states, events, s') && NoBegin(events) && CarriesThrough(s', id, states', events')
    requires id in s.txs && s'.books == s.books && s'.txs - {id} == s.txs - {id}
    requires s'.txs[id].ctx == s.txs[id].ctx && s'.txs[id].request == s.txs[id].request
    ensures CarriesThrough(s, id, states + states'[1..], events + events')
  {
    Chain(s, states, events, s', states', events', states'[|events'|]);
  }

  lemma {:induction false} SoloEnd(s: System, id: nat) returns (states: seq<System>, events: seq<Event>)
    requires OnCourse(s, id) && s.txs[id].stage.Settling?
    ensures CarriesThrough(s, id, states, events)
  {
    SettlesAsSync(s.books, s.txs[id]);
    states, events := Finish(s, id);
  }

  /** Alone, a transaction whose sync succeeds on the books as they are carries it through and commits it. */
  lemma {:induction false} Solo(s: System, id: nat) returns (states: seq<System>, events: seq<Event>)
    requires OnCourse(s, id)
    ensures CarriesThrough(s, id, states, events)
    decreases Ahead(s.txs[id]), |s.txs[id].undo| - s.txs[id].done
  {
    if s.txs[id].stage.Settling? {
      states, events := SoloEnd(s, id);
    } else if ReadsNext(s.txs[id]) {
      var s' := ReadOn(s, id);
      OneStep(s, Read(id), s');
      var states', events' := Solo(s', id);
      GoOn(s, id, [s, s'], [Read(id)], s', states', events');
      states, events := [s, s'] + states'[1..], [Read(id)] + events';
    } else {
      NotDone(s.books, s.txs[id]);
      var states1, events1, s' := UndoOn(s, id);
      var states', events' := Solo(s', id);
      GoOn(s, id, states1, events1, s', states', events');
      states, events := states1 + states'[1..], events1 + events';
    }
  }

  lemma {:induction false} NotDone(b: Books, t: Tx)
    requires Running(b, t) && !t.stage.Settling? && !ReadsNext(t)
    ensures t.stage.Posting? && t.done < |t.undo|
  {
    assert t.Ops() == t.undo;
  }
}
