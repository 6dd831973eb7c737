/**
 Transactions inside one invoice.  syncBillAdjustments (src/common/posting/bill-adjustment.helper.ts) finds the
 invoice's rows and asks which of them are reversed without a lock on the invoice.  A transaction that looks
 before another's commit and asks after it finds everything reversed, undoes nothing and posts once more.  One
 request sent any number of times can so end in two pairs of one credit standing, and does so exactly for the
 requests whose credits cover every line twice.
 */
module SetOffOverlap {
  import opened Prelude
  import opened SetOff
  import opened SetOffLog
  import opened SetOffLaws
  import opened SetOffSync
  import opened SetOffSuccess
  import opened SetOffRuns
  import opened SetOffSerial
  import opened SetOffSolo
  import opened SetOffSettled
  import opened SetOffAlong
  import SetOffStanding

  // ---------------------------------------------------------------- the run that posts twice

  /** A run from these books in which every transaction carries this one request. */
  ghost predicate OfOneRequest(b: Books, ctx: Context, request: Option<seq<Line>>, states: seq<System>, events: seq<Event>) {
    IsRun(states, events) && states[0] == System(b, map[]) && Carrying(ctx, request, events)
  }

  ghost predicate Carrying(ctx: Context, request: Option<seq<Line>>, events: seq<Event>) {
    forall i | 0 <= i < |events| && events[i].Begin? :: events[i].ctx == ctx && events[i].request == request
  }

  /** One more transaction comes in and is carried through before anybody else goes on. */
  lemma {:induction false} Whole(s: System, id: nat, ctx: Context, request: Option<seq<Line>>)
    returns (states: seq<System>, events: seq<Event>)
    requires id !in s.txs && Alone(s, id) && InvoiceOk(s.books.balances, ctx) && Sync(s.books, ctx, request).Ok?
    ensures Leads(s, states, events, System(Sync(s.books, ctx, request).value, s.txs)) && Carrying(ctx, request, events)
  {
    var t := Fresh(s.books, ctx, request);
    var s' := s.(txs := s.txs[id := t]);
    FreshRuns(s.books, t);
    OneStep(s, Begin(id, ctx, request), s');
    var states', events' := Solo(s', id);
    assert s'.txs - {id} == s.txs;
    Chain(s, [s, s'], [Begin(id, ctx, request)], s', states', events', states'[|events'|]);
    states, events := [s, s'] + states'[1..], [Begin(id, ctx, request)] + events';
  }

  /** What it found before is all reversed now, so it is on its way to post. */
  lemma {:induction false} FindsNothing(b: Books, x: Books, ctx: Context, request: Option<seq<Line>>)
    requires Spends(b.rows, x.rows, ctx.bill.id) && Changes(b.rows, ctx, request) && Requested(request) != []
    ensures NextRead(x, Fresh(b, ctx, request)) == Some(Fresh(b, ctx, request).(stage := Posting))
  {
    var t := Fresh(b, ctx, request);
    var found := PlainIndices(b.rows, ctx.bill.id, false, |b.rows|);
    forall k | 0 <= k < |found| ensures Concerns(b.rows[found[k]], ctx.bill.id, true) {
      SetOffStanding.PlainIn(b.rows, ctx.bill.id, false, |b.rows|, found[k]);
    }
    NothingLeft(b.rows, x.rows, ctx.bill.id, found);
    assert LinesAt(x.rows, Unreversed(x.rows, found)) == [];
  }

  /** The transaction that looked before and posts after. */
  ghost function Late(b: Books, x: Books, ctx: Context, request: Option<seq<Line>>): Tx {
    Fresh(b, ctx, request).(stage := Settling, tail := PostPhase(x.rows, ctx.bill.id, Requested(request)))
  }

  lemma {:induction false} LateNumbers(b: Books, x: Books, ctx: Context, request: Option<seq<Line>>)
    ensures NextRead(x, Fresh(b, ctx, request).(stage := Posting)) == Some(Late(b, x, ctx, request))
  {
    assert x.rows + [] == x.rows;
  }

  lemma {:induction false} LateReads(b: Books, x: Books, ctx: Context, request: Option<seq<Line>>, id: nat)
    returns (states: seq<System>, events: seq<Event>)
    requires Spends(b.rows, x.rows, ctx.bill.id) && Changes(b.rows, ctx, request) && Requested(request) != []
    ensures Leads(System(x, map[id := Fresh(b, ctx, request)]), states, events, System(x, map[id := Late(b, x, ctx, request)]))
    ensures NoBegin(events)
  {
    var t := Fresh(b, ctx, request);
    var t' := t.(stage := Posting);
    FindsNothing(b, x, ctx, request);
    LateNumbers(b, x, ctx, request);
    var s, s', s'' := System(x, map[id := t]), System(x, map[id := t']), System(x, map[id := Late(b, x, ctx, request)]);
    assert s'.txs == s.txs[id := t'] && s''.txs == s'.txs[id := Late(b, x, ctx, request)];
    TwoSteps(s, Read(id), s', Read(id), s'');
    states, events := [s, s', s''], [Read(id), Read(id)];
  }

  lemma {:induction false} LateCommits(b: Books, x: Books, ctx: Context, request: Option<seq<Line>>, id: nat, twice: Books)
    returns (states: seq<System>, events: seq<Event>)
    requires InvoiceOk(x.balances, ctx) && Run(x, ctx, PostPhase(x.rows, ctx.bill.id, Requested(request))) == Ok(twice)
    ensures Leads(System(x, map[id := Late(b, x, ctx, request)]), states, events, System(twice, map[])) && NoBegin(events)
  {
    var t := Late(b, x, ctx, request);
    var s := System(x, map[id := t]);
    FreshRuns(x, t);
    assert t.Ops() == PostPhase(x.rows, ctx.bill.id, Requested(request));
    assert s.txs - {id} == map[];
    states, events := Finish(s, id);
  }

  lemma {:induction false} LateEnd(b: Books, x: Books, ctx: Context, request: Option<seq<Line>>, id: nat, twice: Books)
    returns (states: seq<System>, events: seq<Event>)
    requires Spends(b.rows, x.rows, ctx.bill.id) && Changes(b.rows, ctx, request) && Requested(request) != []
    requires InvoiceOk(x.balances, ctx) && Run(x, ctx, PostPhase(x.rows, ctx.bill.id, Requested(request))) == Ok(twice)
    ensures Leads(System(x, map[id := Fresh(b, ctx, request)]), states, events, System(twice, map[])) && NoBegin(events)
  {
    var s, mid := System(x, map[id := Fresh(b, ctx, request)]), System(x, map[id := Late(b, x, ctx, request)]);
    var states1, events1 := LateReads(b, x, ctx, request, id);
    var states2, events2 := LateCommits(b, x, ctx, request, id, twice);
    Chain(s, states1, events1, mid, states2, events2, System(twice, map[]));
    states, events := states1 + states2[1..], events1 + events2;
  }

  lemma {:induction false} LateMiddle(b: Books, x: Books, ctx: Context, request: Option<seq<Line>>, twice: Books)
    returns (states: seq<System>, events: seq<Event>)
    requires InvoiceOk(b.balances, ctx) && InvoiceOk(x.balances, ctx) && Sync(b, ctx, request) == Ok(x)
    requires Spends(b.rows, x.rows, ctx.bill.id) && Changes(b.rows, ctx, request) && Requested(request) != []
    requires Run(x, ctx, PostPhase(x.rows, ctx.bill.id, Requested(request))) == Ok(twice)
    ensures Leads(System(b, map[0 := Fresh(b, ctx, request)]), states, events, System(twice, map[]))
    ensures Carrying(ctx, request, events)
  {
    var s, mid := System(b, map[0 := Fresh(b, ctx, request)]), System(x, map[0 := Fresh(b, ctx, request)]);
    var states1, events1 := Whole(s, 1, ctx, request);
    var states2, events2 := LateEnd(b, x, ctx, request, 0, twice);
    Chain(s, states1, events1, mid, states2, events2, System(twice, map[]));
    states, events := states1 + states2[1..], events1 + events2;
  }

  lemma {:induction false} FirstIn(b: Books, ctx: Context, request: Option<seq<Line>>)
    requires InvoiceOk(b.balances, ctx)
    ensures Next(System(b, map[]), Begin(0, ctx, request), System(b, map[0 := Fresh(b, ctx, request)]))
  {
    assert System(b, map[]).txs[0 := Fresh(b, ctx, request)] == map[0 := Fresh(b, ctx, request)];
  }

  /** One looks, the other syncs, the first asks what is reversed and posts. */
  lemma {:induction false} LateRun(b: Books, x: Books, ctx: Context, request: Option<seq<Line>>, twice: Books)
    returns (states: seq<System>, events: seq<Event>)
    requires InvoiceOk(b.balances, ctx) && InvoiceOk(x.balances, ctx) && Sync(b, ctx, request) == Ok(x)
    requires Spends(b.rows, x.rows, ctx.bill.id) && Changes(b.rows, ctx, request) && Requested(request) != []
    requires Run(x, ctx, PostPhase(x.rows, ctx.bill.id, Requested(request))) == Ok(twice)
    ensures OfOneRequest(b, ctx, request, states, events) && states[|events|] == System(twice, map[])
  {
    var s, s' := System(b, map[]), System(b, map[0 := Fresh(b, ctx, request)]);
    var states1, events1 := LateMiddle(b, x, ctx, request, twice);
    FirstIn(b, ctx, request);
    OneStep(s, Begin(0, ctx, request), s');
    Chain(s, [s, s'], [Begin(0, ctx, request)], s', states1, events1, System(twice, map[]));
    states, events := [s, s'] + states1[1..], [Begin(0, ctx, request)] + events1;
  }

  // ---------------------------------------------------------------- two pairs of one credit

  /** A standing row of the invoice and a first new pair for the same credit. */
  lemma {:induction false} TwoStand(x: Books, ctx: Context, requested: seq<Line>, no: nat, posted: seq<Row>)
    requires ReversalsExact(x.rows) && KeysInv(x) && InvoiceOk(x.balances, ctx)
    requires LiveLines(x.rows, ctx.bill.id) == requested != []
    requires PostedRows(x.balances, ctx, requested, no, posted)
    ensures !OnePerCredit(x.rows + posted)
  {
    var at, all := LiveIndices(x.rows, ctx.bill.id, false, |x.rows|), x.rows + posted;
    var p := at[0];
    LiveIndicesExact(x.rows, ctx.bill.id, false, |x.rows|);
    assert p in at && AsLine(x.rows[p]) == requested[0];
    OnInvoiceSide(x, ctx, p);
    PostedPlain(x.balances, ctx, requested, no, posted);
    AfterPost(x.rows, posted);
    PostedIs(x.balances, ctx, requested, no, posted, 0);
    assert all[p] == x.rows[p] && all[|x.rows|] == posted[0];
    assert !CreditsDiffer(all, p, |x.rows|);
  }

  lemma {:induction false} OnInvoiceSide(x: Books, ctx: Context, p: nat)
    requires KeysInv(x) && InvoiceOk(x.balances, ctx) && p < |x.rows| && x.rows[p].bill.id == ctx.bill.id
    ensures x.rows[p].side == CR
  {
    assert RowSides(x.balances, x.rows[p]) && IdIsKey(x.rows[p].bill, ctx.bill);
  }

  /** Every line of the request has been taken from its credit twice, and its pairs stand twice over. */
  ghost predicate TakenTwice(b: Books, ctx: Context, requested: seq<Line>, end: Books) {
    && !OnePerCredit(end.rows)
    && forall k | 0 <= k < |requested| ::
         && requested[k].Credit() in b.balances && requested[k].Credit() in end.balances
         && end.balances[requested[k].Credit()].alloc
              == b.balances[requested[k].Credit()].alloc - Taken(b, ctx, requested[k].Credit()) + 2 * requested[k].amount
  }

  lemma {:induction false} LineTwice(b: Books, ctx: Context, requested: seq<Line>, x: Books, twice: Books, no: nat, k: nat)
    requires BooksInv(b) && InvoiceOk(b.balances, ctx) && Settled(b, ctx, requested, x) && Wellformed(requested) && k < |requested|
    requires Covers(b, ctx, requested[k])
    requires Run(x, ctx, PostOps(requested, no) + [Settle(Sum(requested))]) == Ok(twice)
    ensures var c := requested[k].Credit();
      && c in b.balances && c in twice.balances
      && twice.balances[c].alloc == b.balances[c].alloc - Taken(b, ctx, c) + 2 * requested[k].amount
  {
    var c := requested[k].Credit();
    assert AllocIs(b, ctx, requested, x, c) && IdIsKey(c, ctx.bill);
    TakenOfLine(requested, k);
    PhaseMoves(x, ctx, requested, no, twice, c);
  }

  lemma {:induction false} TwiceIs(b: Books, ctx: Context, requested: seq<Line>, x: Books, twice: Books, no: nat)
    requires BooksInv(b) && InvoiceOk(b.balances, ctx) && Settled(b, ctx, requested, x) && Wellformed(requested)
    requires requested != [] && AllCover(b, ctx, requested)
    requires Run(x, ctx, PostOps(requested, no) + [Settle(Sum(requested))]) == Ok(twice)
    ensures TakenTwice(b, ctx, requested, twice)
  {
    var posted := PostThenSettle(x, x, ctx, requested, no, PostOps(requested, no), twice);
    TwoStand(x, ctx, requested, no, posted);
    forall k | 0 <= k < |requested|
      ensures requested[k].Credit() in b.balances && requested[k].Credit() in twice.balances
      ensures twice.balances[requested[k].Credit()].alloc
           == b.balances[requested[k].Credit()].alloc - Taken(b, ctx, requested[k].Credit()) + 2 * requested[k].amount
    {
      LineTwice(b, ctx, requested, x, twice, no, k);
    }
  }

  // ---------------------------------------------------------------- out of reach of syncs in turn

  ghost predicate OnInvoices(b: Books, jobs: seq<Job>) {
    forall k | 0 <= k < |jobs| :: InvoiceOk(b.balances, jobs[k].ctx)
  }

  lemma {:induction false} SerialKeeps(b: Books, jobs: seq<Job>)
    requires BooksInv(b) && Serial(b, jobs).Ok? && OnInvoices(b, jobs)
    ensures BooksInv(Serial(b, jobs).value) && SameButAlloc(b.balances, Serial(b, jobs).value.balances)
  {
    if jobs != [] {
      var n := |jobs| - 1;
      SerialKeeps(b, jobs[..n]);
      var mid := Serial(b, jobs[..n]).value;
      assert InvoiceOk(b.balances, jobs[n].ctx);
      SyncKeepsBooks(mid, jobs[n].ctx, jobs[n].request, Serial(b, jobs).value);
      SameTrans(b.balances, mid.balances, Serial(b, jobs).value.balances);
    }
  }

  /** No syncs one after the other, in any number and order, lead there. */
  ghost predicate OutOfReach(b: Books, end: Books) {
    forall jobs | OnInvoices(b, jobs) :: Serial(b, jobs) != Ok(end)
  }

  /** Books with two standing pairs of one invoice and credit are out of reach of syncs one after the other. */
  lemma {:induction false} NotSerial(b: Books, end: Books)
    requires BooksInv(b) && !OnePerCredit(end.rows)
    ensures OutOfReach(b, end)
  {
    forall jobs: seq<Job> | OnInvoices(b, jobs) ensures Serial(b, jobs) != Ok(end) {
      if Serial(b, jobs).Ok? {
        SerialKeeps(b, jobs);
      }
    }
  }

  // ---------------------------------------------------------------- when it happens

  /** The request replaces what stands by something, would succeed, and every credit covers its line twice. */
  ghost predicate CanOverlap(b: Books, ctx: Context, request: Option<seq<Line>>)
    requires InvoiceOk(b.balances, ctx)
  {
    && Changes(b.rows, ctx, request) && Requested(request) != []
    && CanSync(b, ctx, request) && AllCoverTwice(b, ctx, Requested(request))
  }

  lemma {:induction false} Replaceable(b: Books, ctx: Context, request: Option<seq<Line>>) returns (x: Books)
    requires BooksInv(b) && InvoiceOk(b.balances, ctx) && CanOverlap(b, ctx, request)
    ensures Sync(b, ctx, request) == Ok(x) && Run(b, ctx, ReplaceOps(b.rows, ctx, Requested(request))) == Ok(x)
    ensures Wellformed(Requested(request))
  {
    SyncSucceedsIff(b, ctx, request);
    ChangeOps(b, ctx, request);
    x := Sync(b, ctx, request).value;
  }

  lemma {:induction false} Again(b: Books, ctx: Context, requested: seq<Line>, x: Books, no: nat) returns (twice: Books)
    requires BooksInv(b) && InvoiceOk(b.balances, ctx) && Wellformed(requested) && requested != []
    requires Run(b, ctx, ReplaceOps(b.rows, ctx, requested)) == Ok(x) && AllCoverTwice(b, ctx, requested)
    ensures InvoiceOk(x.balances, ctx) && Spends(b.rows, x.rows, ctx.bill.id)
    ensures Run(x, ctx, PostOps(requested, no) + [Settle(Sum(requested))]) == Ok(twice)
    ensures TakenTwice(b, ctx, requested, twice)
  {
    ReplaceIff(b, ctx, requested);
    FirstSettles(b, ctx, requested, x);
    ReplaceSpends(b, ctx, requested, x);
    PostsAgainIff(b, ctx, requested, x, no);
    twice := Run(x, ctx, PostOps(requested, no) + [Settle(Sum(requested))]).value;
    TwiceIs(b, ctx, requested, x, twice, no);
  }

  lemma {:induction false} OnceAndAgain(b: Books, ctx: Context, request: Option<seq<Line>>) returns (x: Books, twice: Books)
    requires BooksInv(b) && InvoiceOk(b.balances, ctx) && CanOverlap(b, ctx, request)
    ensures Sync(b, ctx, request) == Ok(x) && InvoiceOk(x.balances, ctx) && Spends(b.rows, x.rows, ctx.bill.id)
    ensures Run(x, ctx, PostPhase(x.rows, ctx.bill.id, Requested(request))) == Ok(twice)
    ensures TakenTwice(b, ctx, Requested(request), twice)
  {
    x := Replaceable(b, ctx, request);
    twice := Again(b, ctx, Requested(request), x, HighestRowNo(x.rows, ctx.bill.id) + 1);
  }

  /**
   Whenever that is so there is a run of two transactions that takes every line from its credit twice.  Its books
   break the one-pair-per-credit rule, and no syncs one after the other, in any order, lead to them.
   */
  lemma {:induction false} OverlapTakesTwice(b: Books, ctx: Context, request: Option<seq<Line>>)
    returns (states: seq<System>, events: seq<Event>)
    requires BooksInv(b) && InvoiceOk(b.balances, ctx) && CanOverlap(b, ctx, request)
    ensures OfOneRequest(b, ctx, request, states, events)
    ensures var end := states[|events|];
      end.txs == map[] && TakenTwice(b, ctx, Requested(request), end.books) && OutOfReach(b, end.books)
  {
    var x, twice := OnceAndAgain(b, ctx, request);
    states, events := LateRun(b, x, ctx, request, twice);
    NotSerial(b, twice);
  }

  // ---------------------------------------------------------------- and no other

  ghost predicate OnBefore(b: Books, ctx: Context, request: Option<seq<Line>>, s: System) {
    && s.books == b
    && forall id | id in s.txs :: s.txs[id].ctx == ctx && s.txs[id].request == request && Planned(b, s.txs[id])
  }

  ghost predicate AllAlong(ctx: Context, request: Option<seq<Line>>, s: System) {
    forall id | id in s.txs :: Along(s.books.rows, ctx, request, s.txs[id])
  }

  ghost predicate OnAfter(b: Books, ctx: Context, request: Option<seq<Line>>, s: System) {
    CarriesRequest(b, ctx, request, s.books) && AllAlong(ctx, request, s)
  }

  lemma {:induction false} CommitBefore(b: Books, ctx: Context, request: Option<seq<Line>>, s: System, id: nat, s': System)
    requires NotTwice(b, ctx, request) && LockInv(s) && OnBefore(b, ctx, request, s) && Next(s, Commit(id), s')
    ensures OnAfter(b, ctx, request, s')
  {
    assert Running(b, s.txs[id]);
    CommitRuns(b, s.txs[id]);
    FirstCommits(b, ctx, request, s.txs[id], s'.books);
    forall other | other in s'.txs ensures Along(s'.books.rows, ctx, request, s'.txs[other]) {
      PlannedAlong(b, s.txs[other]);
      AlongStays(b.rows, s'.books.rows, ctx, request, s.txs[other]);
    }
  }

  lemma {:induction false} CommitAfter(b: Books, ctx: Context, request: Option<seq<Line>>, s: System, id: nat, s': System)
    requires NotTwice(b, ctx, request) && LockInv(s) && OnAfter(b, ctx, request, s) && Next(s, Commit(id), s')
    ensures OnAfter(b, ctx, request, s')
  {
    assert Running(s.books, s.txs[id]) && Along(s.books.rows, ctx, request, s.txs[id]);
    CommitRuns(s.books, s.txs[id]);
    AlongCommits(b, ctx, request, s.books, s.txs[id], s'.books);
    forall other | other in s'.txs ensures Along(s'.books.rows, ctx, request, s'.txs[other]) {
      assert Along(s.books.rows, ctx, request, s.txs[other]);
      if s'.books.rows != s.books.rows { AlongStays(s.books.rows, s'.books.rows, ctx, request, s.txs[other]); }
    }
  }

  lemma {:induction false} OtherBefore(b: Books, ctx: Context, request: Option<seq<Line>>, s: System, e: Event, s': System)
    requires LockInv(s) && OnBefore(b, ctx, request, s) && Next(s, e, s') && !e.Commit?
    requires e.Begin? ==> e.ctx == ctx && e.request == request
    ensures OnBefore(b, ctx, request, s')
  {
    assert AllPlanned(s);
    PlansStay(s, e, s');
    SameJobs(s, e, s', ctx, request);
  }

  lemma {:induction false} SameJobs(s: System, e: Event, s': System, ctx: Context, request: Option<seq<Line>>)
    requires Next(s, e, s') && (e.Begin? ==> e.ctx == ctx && e.request == request)
    requires forall id | id in s.txs :: s.txs[id].ctx == ctx && s.txs[id].request == request
    ensures forall id | id in s'.txs :: s'.txs[id].ctx == ctx && s'.txs[id].request == request
  {
    forall id | id in s'.txs ensures s'.txs[id].ctx == ctx && s'.txs[id].request == request {
      if e == Read(id) { ReadAhead(s.books, s.txs[id]); }
    }
  }

  lemma {:induction false} OneAlong(ctx: Context, request: Option<seq<Line>>, s: System, id: nat, t: Tx)
    requires AllAlong(ctx, request, s) && Along(s.books.rows, ctx, request, t)
    ensures AllAlong(ctx, request, s.(txs := s.txs[id := t]))
  {
  }

  lemma {:induction false} BeginAfter(ctx: Context, request: Option<seq<Line>>, s: System, id: nat, s': System)
    requires AllAlong(ctx, request, s) && Next(s, Begin(id, ctx, request), s')
    ensures AllAlong(ctx, request, s')
  {
    TwoReads(s.books.rows, ctx.bill.id, false, |s.books.rows|);
    OneAlong(ctx, request, s, id, s'.txs[id]);
  }

  lemma {:induction false} ReadAfter(b: Books, ctx: Context, request: Option<seq<Line>>, s: System, id: nat, s': System)
    requires Changes(b.rows, ctx, request) && LockInv(s) && OnAfter(b, ctx, request, s) && Next(s, Read(id), s')
    ensures OnAfter(b, ctx, request, s')
  {
    assert Running(s.books, s.txs[id]) && Along(s.books.rows, ctx, request, s.txs[id]);
    NextReadAlong(s.books, s.txs[id]);
    OneAlong(ctx, request, s, id, s'.txs[id]);
  }

  lemma {:induction false} AlongAsPlanned(rows: seq<Row>, ctx: Context, request: Option<seq<Line>>, t: Tx, t': Tx)
    requires Along(rows, ctx, request, t) && SamePlan(t, t')
    ensures Along(rows, ctx, request, t')
  {
    if t.stage.Settling? && Stale(rows, t) {
      var no: nat :| PostsAt(t, no);
      assert PostsAt(t', no);
    }
  }

  lemma {:induction false} LockAfter(ctx: Context, request: Option<seq<Line>>, s: System, id: nat, key: Key, s': System)
    requires AllAlong(ctx, request, s) && Next(s, Lock(id, key), s')
    ensures AllAlong(ctx, request, s')
  {
    assert Along(s.books.rows, ctx, request, s.txs[id]);
    AlongAsPlanned(s.books.rows, ctx, request, s.txs[id], s'.txs[id]);
    OneAlong(ctx, request, s, id, s'.txs[id]);
  }

  lemma {:induction false} PerformAfter(ctx: Context, request: Option<seq<Line>>, s: System, id: nat, s': System)
    requires AllAlong(ctx, request, s) && Next(s, Perform(id), s')
    ensures AllAlong(ctx, request, s')
  {
    assert Along(s.books.rows, ctx, request, s.txs[id]);
    AlongAsPlanned(s.books.rows, ctx, request, s.txs[id], s'.txs[id]);
    OneAlong(ctx, request, s, id, s'.txs[id]);
  }

  lemma {:induction false} StepNotTwice(b: Books, ctx: Context, request: Option<seq<Line>>, s: System, e: Event, s': System)
    requires NotTwice(b, ctx, request) && LockInv(s) && Next(s, e, s')
    requires OnBefore(b, ctx, request, s) || OnAfter(b, ctx, request, s)
    requires e.Begin? ==> e.ctx == ctx && e.request == request
    ensures OnBefore(b, ctx, request, s') || OnAfter(b, ctx, request, s')
  {
    if OnBefore(b, ctx, request, s) {
      if e.Commit? { CommitBefore(b, ctx, request, s, e.id, s'); } else { OtherBefore(b, ctx, request, s, e, s'); }
    } else {
      match e {
        case Begin(id, _, _) => BeginAfter(ctx, request, s, id, s');
        case Read(id) => ReadAfter(b, ctx, request, s, id, s');
        case Commit(id) => CommitAfter(b, ctx, request, s, id, s');
        case Lock(id, key) => LockAfter(ctx, request, s, id, key, s');
        case Perform(id) => PerformAfter(ctx, request, s, id, s');
        case Abort(_) =>
      }
    }
  }

  lemma {:induction false} RunNotTwice(
    b: Books, ctx: Context, request: Option<seq<Line>>, states: seq<System>, events: seq<Event>)
    requires NotTwice(b, ctx, request) && OfOneRequest(b, ctx, request, states, events)
    ensures OnBefore(b, ctx, request, states[|events|]) || OnAfter(b, ctx, request, states[|events|])
  {
    if events != [] {
      var n := |events| - 1;
      assert OfOneRequest(b, ctx, request, states[..n + 1], events[..n]);
      RunNotTwice(b, ctx, request, states[..n + 1], events[..n]);
      RunKeepsLocks(states[..n + 1], events[..n]);
      assert Next(states[n], events[n], states[n + 1]);
      StepNotTwice(b, ctx, request, states[n], events[n], states[n + 1]);
    }
  }

  // ---------------------------------------------------------------- a request that changes nothing

  ghost predicate Quiet(b: Books, ctx: Context, request: Option<seq<Line>>, s: System) {
    && s.books.rows == b.rows
    && forall id | id in s.txs :: s.txs[id].ctx == ctx && s.txs[id].request == request && Planned(s.books, s.txs[id])
  }

  lemma {:induction false} CommitQuiet(b: Books, ctx: Context, request: Option<seq<Line>>, s: System, id: nat, s': System)
    requires !Changes(b.rows, ctx, request) && LockInv(s) && Quiet(b, ctx, request, s) && Next(s, Commit(id), s')
    ensures Quiet(b, ctx, request, s')
  {
    assert Running(s.books, s.txs[id]) && Planned(s.books, s.txs[id]);
    CommitIsSync(s.books, s.txs[id]);
    KeepBooks(s.books, ctx, request, s'.books);
    forall other | other in s'.txs ensures Planned(s'.books, s'.txs[other]) {
      assert Planned(s.books, s.txs[other]);
      SameRowsPlanned(s.books, s'.books, s.txs[other]);
    }
  }

  lemma {:induction false} SameRowsPlanned(b: Books, b': Books, t: Tx)
    requires b.rows == b'.rows && Planned(b, t)
    ensures Planned(b', t)
  {
  }

  lemma {:induction false} StepQuiet(b: Books, ctx: Context, request: Option<seq<Line>>, s: System, e: Event, s': System)
    requires !Changes(b.rows, ctx, request) && LockInv(s) && Quiet(b, ctx, request, s) && Next(s, e, s')
    requires e.Begin? ==> e.ctx == ctx && e.request == request
    ensures Quiet(b, ctx, request, s')
  {
    if e.Commit? {
      CommitQuiet(b, ctx, request, s, e.id, s');
    } else {
      assert AllPlanned(s);
      PlansStay(s, e, s');
      SameJobs(s, e, s', ctx, request);
    }
  }

  lemma {:induction false} RunQuiet(
    b: Books, ctx: Context, request: Option<seq<Line>>, states: seq<System>, events: seq<Event>)
    requires BooksInv(b) && !Changes(b.rows, ctx, request) && OfOneRequest(b, ctx, request, states, events)
    ensures Quiet(b, ctx, request, states[|events|])
  {
    if events != [] {
      var n := |events| - 1;
      assert OfOneRequest(b, ctx, request, states[..n + 1], events[..n]);
      RunQuiet(b, ctx, request, states[..n + 1], events[..n]);
      RunKeepsLocks(states[..n + 1], events[..n]);
      assert Next(states[n], events[n], states[n + 1]);
      StepQuiet(b, ctx, request, states[n], events[n], states[n + 1]);
    }
  }

  // ---------------------------------------------------------------- the theorem

  /**
   Otherwise no interleaving of any number of them leaves two pairs of one credit standing: the rows stay as they
   are, or the request stands once and every credit has the figure one sync leaves it with.
   */
  lemma {:induction false} TakenOnceAtMost(
    b: Books, ctx: Context, request: Option<seq<Line>>, states: seq<System>, events: seq<Event>)
    requires BooksInv(b) && InvoiceOk(b.balances, ctx) && !CanOverlap(b, ctx, request)
    requires OfOneRequest(b, ctx, request, states, events)
    ensures var x := states[|events|].books;
      OnePerCredit(x.rows) && (x.rows == b.rows || Settled(b, ctx, Requested(request), x))
  {
    SyncSucceedsIff(b, ctx, request);
    if Changes(b.rows, ctx, request) {
      RunNotTwice(b, ctx, request, states, events);
    } else {
      RunQuiet(b, ctx, request, states, events);
    }
  }

  ghost predicate OverlapsIn(b: Books, ctx: Context, request: Option<seq<Line>>, states: seq<System>, events: seq<Event>) {
    OfOneRequest(b, ctx, request, states, events) && !OnePerCredit(states[|events|].books.rows)
  }

  /**
   For books in order, any invoice and any request: transactions that all carry it, any number of them in any
   interleaving, can leave two pairs of the invoice and one credit standing if and only if the request replaces
   what stands by something, would succeed on its own, and every credit it names covers its line twice.
   */
  lemma {:induction false} OverlapIff(b: Books, ctx: Context, request: Option<seq<Line>>)
    requires BooksInv(b) && InvoiceOk(b.balances, ctx)
    ensures (exists states, events :: OverlapsIn(b, ctx, request, states, events)) <==> CanOverlap(b, ctx, request)
  {
    if CanOverlap(b, ctx, request) {
      var states, events := OverlapTakesTwice(b, ctx, request);
      assert OverlapsIn(b, ctx, request, states, events);
    } else {
      forall states, events ensures !OverlapsIn(b, ctx, request, states, events) {
        if OfOneRequest(b, ctx, request, states, events) { TakenOnceAtMost(b, ctx, request, states, events); }
      }
    }
  }

  /** One line on an invoice with nothing standing that succeeds on its own: if and only if the credit covers it twice. */
  lemma {:induction false} OneLineOverlapIff(b: Books, ctx: Context, line: Line)
    requires BooksInv(b) && InvoiceOk(b.balances, ctx) && LiveLines(b.rows, ctx.bill.id) == []
    requires Sync(b, ctx, Some([line])).Ok?
    ensures (exists states, events :: OverlapsIn(b, ctx, Some([line]), states, events))
       <==> line.Credit() in b.balances && 2 * line.amount <= b.balances[line.Credit()].Pending()
  {
    var lines := [line];
    OverlapIff(b, ctx, Some(lines));
    SyncSucceedsIff(b, ctx, Some(lines));
    OneLine(line);
    assert Requested(Some(lines)) == lines && Taken(b, ctx, line.Credit()) == 0;
    assert AllCoverTwice(b, ctx, lines) <==> CoversTwice(b, ctx, line);
  }

  lemma {:induction false} OneLine(line: Line)
    requires Normalize([line]).Ok?
    ensures Normalize([line]) == Ok([line])
  {
    var lines, none := [line], [];
    assert lines[..0] == none && Normalize(none) == Ok(none);
    assert none + [line] == lines;
  }
}
