/**
 Numbers drawn by concurrent transactions (src/common/Sequence/voucher-sequence.helper.ts).  The
 company-wide serial is MAX + 1 over the headers; a voucher type's number comes from a counter row
 that is created on first use.  Both are drawn under an advisory lock on a hash of the scope, held to
 the end of the transaction.  The admin screens that write a counter outright are not modelled.

 The hash is any function at all: a collision only makes strangers wait for each other.
 */
module Numbering {
  datatype Scope =
    | SerialScope(company: nat, year: nat)
    | TypeScope(kind: nat, company: nat, branch: nat, year: nat, device: nat, period: nat)

  /** A number on a document that was inserted. */
  datatype Issued = Issued(scope: Scope, value: nat)

  datatype CounterRow = CounterRow(scope: Scope, lastNo: nat)

  datatype Db = Db(issued: seq<Issued>, counters: seq<CounterRow>)

  /** `drawn` holds the numbers drawn for a document that is not yet inserted. */
  datatype Tx = Tx(
    held: set<int>, own: seq<Issued>, drawn: seq<Issued>, bumped: map<Scope, nat>, created: seq<Scope>)

  datatype System = System(db: Db, txs: map<nat, Tx>)

  // ---------------------------------------------------------------- what is read

  function Highest(rows: seq<Issued>, s: Scope): nat {
    if rows == [] then 0
    else
      var r := rows[|rows| - 1];
      var rest := Highest(rows[..|rows| - 1], s);
      if r.scope == s && r.value > rest then r.value else rest
  }

  /** It is the maximum of the scope's numbers, 0 when there are none. */
  lemma {:induction false} HighestMeaning(rows: seq<Issued>, s: Scope)
    ensures forall i | 0 <= i < |rows| && rows[i].scope == s :: rows[i].value <= Highest(rows, s)
    ensures Highest(rows, s) == 0 || exists i :: 0 <= i < |rows| && rows[i].scope == s && rows[i].value == Highest(rows, s)
  {
    if rows != [] {
      var n := |rows| - 1;
      HighestMeaning(rows[..n], s);
      assert forall i | 0 <= i < n :: rows[..n][i] == rows[i];
      if Highest(rows, s) == Highest(rows[..n], s) && Highest(rows, s) != 0 {
        var i :| 0 <= i < n && rows[..n][i].scope == s && rows[..n][i].value == Highest(rows, s);
        assert rows[i].scope == s && rows[i].value == Highest(rows, s);
      }
    }
  }

  function RowCount(counters: seq<CounterRow>, s: Scope): nat {
    if counters == [] then 0
    else RowCount(counters[..|counters| - 1], s) + if counters[|counters| - 1].scope == s then 1 else 0
  }

  /** The value in a scope's counter row, 0 when there is none. */
  function LastNo(counters: seq<CounterRow>, s: Scope): nat {
    if counters == [] then 0
    else
      var r := counters[|counters| - 1];
      if r.scope == s then r.lastNo else LastNo(counters[..|counters| - 1], s)
  }

  // ---------------------------------------------------------------- steps

  datatype Event =
    | Begin(id: nat)
    | Lock(id: nat, scope: Scope)
    | Draw(id: nat, scope: Scope)
    | Insert(id: nat)
    | Commit(id: nat)
    | Abort(id: nat)

  predicate LockFree(s: System, lock: int, id: nat) {
    forall other | other in s.txs && other != id :: lock !in s.txs[other].held
  }

  /** Reading the serial, or finding or creating the counter row and incrementing it. */
  function Drawn(db: Db, t: Tx, s: Scope): Tx {
    if s.SerialScope? then t.(drawn := t.drawn + [Issued(s, Highest(db.issued + t.own, s) + 1)])
    else
      var last := if s in t.bumped then t.bumped[s] else LastNo(db.counters, s);
      t.(drawn := t.drawn + [Issued(s, last + 1)],
         bumped := t.bumped[s := last + 1],
         created := if s in t.bumped || RowCount(db.counters, s) > 0 then t.created else t.created + [s])
  }

  function Bump(counters: seq<CounterRow>, bumped: map<Scope, nat>): seq<CounterRow> {
    if counters == [] then []
    else
      var n := |counters| - 1;
      var r := counters[n];
      Bump(counters[..n], bumped) + [if r.scope in bumped then r.(lastNo := bumped[r.scope]) else r]
  }

  function NewRows(created: seq<Scope>, bumped: map<Scope, nat>): seq<CounterRow> {
    if created == [] then []
    else
      var n := |created| - 1;
      NewRows(created[..n], bumped)
      + [CounterRow(created[n], if created[n] in bumped then bumped[created[n]] else 0)]
  }

  function Committed(db: Db, t: Tx): Db {
    Db(db.issued + t.own, Bump(db.counters, t.bumped) + NewRows(t.created, t.bumped))
  }

  ghost predicate Next(s: System, e: Event, s': System, hash: Scope -> int) {
    match e
    case Begin(id) => id !in s.txs && s' == s.(txs := s.txs[id := Tx({}, [], [], map[], [])])
    case Lock(id, scope) =>
      && id in s.txs && LockFree(s, hash(scope), id)
      && s' == s.(txs := s.txs[id := s.txs[id].(held := s.txs[id].held + {hash(scope)})])
    case Draw(id, scope) =>
      && id in s.txs && hash(scope) in s.txs[id].held
      && (scope.SerialScope? ==> forall r | r in s.txs[id].drawn :: r.scope != scope)
      && s' == s.(txs := s.txs[id := Drawn(s.db, s.txs[id], scope)])
    case Insert(id) =>
      && id in s.txs
      && s' == s.(txs := s.txs[id := s.txs[id].(own := s.txs[id].own + s.txs[id].drawn, drawn := [])])
    case Commit(id) =>
      && id in s.txs && s.txs[id].drawn == []
      && s' == System(Committed(s.db, s.txs[id]), s.txs - {id})
    case Abort(id) => id in s.txs && s' == s.(txs := s.txs - {id})
  }

  // ---------------------------------------------------------------- the invariant

  /** The numbers issued in a scope, in the order they were committed. */
  ghost function Values(rows: seq<Issued>, s: Scope): seq<nat> {
    if rows == [] then []
    else
      var n := |rows| - 1;
      Values(rows[..n], s) + if rows[n].scope == s then [rows[n].value] else []
  }

  /** after + 1, after + 2, .., after + n */
  ghost function Consecutive(after: nat, n: nat): seq<nat> { seq(n, i => after + i + 1) }

  /** A scope's numbers are 1 .. k in order, and its one counter row, if any, says k. */
  ghost predicate ScopeOk(db: Db, s: Scope) {
    var k := |Values(db.issued, s)|;
    && Values(db.issued, s) == Consecutive(0, k)
    && (s.TypeScope? ==> RowCount(db.counters, s) <= 1 && LastNo(db.counters, s) == k)
  }

  /** What a transaction holds of a scope continues what is committed, under the scope's lock. */
  ghost predicate TxScopeOk(db: Db, t: Tx, s: Scope, hash: Scope -> int) {
    var k, mine := |Values(db.issued, s)|, Values(t.own + t.drawn, s);
    && mine == Consecutive(k, |mine|)
    && (mine != [] || s in t.bumped || s in t.created ==> hash(s) in t.held)
    && (s.SerialScope? ==> s !in t.bumped && s !in t.created)
    && (s.TypeScope? ==>
          && (mine != [] <==> s in t.bumped)
          && (s in t.bumped ==> t.bumped[s] == k + |mine|)
          && Count(t.created, s) == if s in t.bumped && RowCount(db.counters, s) == 0 then 1 else 0)
  }

  ghost function Count(scopes: seq<Scope>, s: Scope): nat {
    if scopes == [] then 0
    else Count(scopes[..|scopes| - 1], s) + if scopes[|scopes| - 1] == s then 1 else 0
  }

  ghost predicate Exclusive(s: System) {
    forall i, j | i in s.txs && j in s.txs && i != j :: s.txs[i].held !! s.txs[j].held
  }

  ghost predicate DbOk(db: Db) { forall s :: ScopeOk(db, s) }

  ghost predicate TxOk(db: Db, t: Tx, hash: Scope -> int) { forall s :: TxScopeOk(db, t, s, hash) }

  ghost predicate SystemInv(s: System, hash: Scope -> int) {
    DbOk(s.db) && Exclusive(s) && forall id | id in s.txs :: TxOk(s.db, s.txs[id], hash)
  }

  // ---------------------------------------------------------------- lemmas about rows

  lemma {:induction false} ValuesAppend(a: seq<Issued>, b: seq<Issued>, s: Scope)
    ensures Values(a + b, s) == Values(a, s) + Values(b, s)
  {
    if b == [] {
      assert a + b == a;
    } else {
      var n := |b| - 1;
      assert (a + b)[..|a + b| - 1] == a + b[..n];
      ValuesAppend(a, b[..n], s);
    }
  }

  /** When a scope's numbers are 1 .. k, the highest is k. */
  lemma {:induction false} HighestIsCount(rows: seq<Issued>, s: Scope)
    requires Values(rows, s) == Consecutive(0, |Values(rows, s)|)
    ensures Highest(rows, s) == |Values(rows, s)|
  {
    if rows != [] {
      var n := |rows| - 1;
      var rest := Values(rows[..n], s);
      if rows[n].scope == s {
        var all := Values(rows, s);
        assert all[|rest|] == rows[n].value;
        assert rest == all[..|rest|] == Consecutive(0, |rest|);
      }
      HighestIsCount(rows[..n], s);
    }
  }

  lemma {:induction false} ConsecutiveJoin(k: nat, m: nat)
    ensures Consecutive(0, k) + Consecutive(k, m) == Consecutive(0, k + m)
    ensures Consecutive(k, m) + [k + m + 1] == Consecutive(k, m + 1)
  {
  }

  lemma {:induction false} LastRow(rest: seq<CounterRow>, last: CounterRow, s: Scope)
    ensures RowCount(rest + [last], s) == RowCount(rest, s) + if last.scope == s then 1 else 0
    ensures LastNo(rest + [last], s) == if last.scope == s then last.lastNo else LastNo(rest, s)
  {
    assert (rest + [last])[..|rest|] == rest;
  }

  lemma {:induction false} BumpRow(counters: seq<CounterRow>, bumped: map<Scope, nat>, s: Scope)
    ensures RowCount(Bump(counters, bumped), s) == RowCount(counters, s)
    ensures LastNo(Bump(counters, bumped), s)
         == if RowCount(counters, s) > 0 && s in bumped then bumped[s] else LastNo(counters, s)
  {
    if counters != [] {
      var n := |counters| - 1;
      BumpRow(counters[..n], bumped, s);
      var last := if counters[n].scope in bumped then counters[n].(lastNo := bumped[counters[n].scope]) else counters[n];
      var rest := Bump(counters[..n], bumped);
      assert Bump(counters, bumped) == rest + [last];
      LastRow(rest, last, s);
    }
  }

  lemma {:induction false} NewRow(created: seq<Scope>, bumped: map<Scope, nat>, counters: seq<CounterRow>, s: Scope)
    ensures RowCount(counters + NewRows(created, bumped), s) == RowCount(counters, s) + Count(created, s)
    ensures LastNo(counters + NewRows(created, bumped), s)
         == if Count(created, s) > 0 then (if s in bumped then bumped[s] else 0) else LastNo(counters, s)
  {
    if created == [] {
      assert counters + NewRows(created, bumped) == counters;
    } else {
      var n := |created| - 1;
      NewRow(created[..n], bumped, counters, s);
      var rest := counters + NewRows(created[..n], bumped);
      var row := CounterRow(created[n], if created[n] in bumped then bumped[created[n]] else 0);
      assert counters + NewRows(created, bumped) == rest + [row];
      LastRow(rest, row, s);
    }
  }

  lemma {:induction false} CountZero(scopes: seq<Scope>, s: Scope)
    ensures Count(scopes, s) == 0 <==> s !in scopes
  {
    if scopes != [] {
      var n := |scopes| - 1;
      CountZero(scopes[..n], s);
      assert scopes == scopes[..n] + [scopes[n]];
    }
  }

  // ---------------------------------------------------------------- steps keep the invariant

  lemma {:induction false} NoneDrawn(rows: seq<Issued>, s: Scope)
    requires forall r | r in rows :: r.scope != s
    ensures Values(rows, s) == []
  {
    if rows != [] {
      NoneDrawn(rows[..|rows| - 1], s);
    }
  }

  /** What TxScopeOk asks of the numbers alone. */
  lemma {:induction false} DrawAppends(db: Db, t: Tx, drawn: Scope, s: Scope)
    ensures var t' := Drawn(db, t, drawn);
      Values(t'.own + t'.drawn, s) == if s == drawn then Values(t.own + t.drawn, s) + [t'.drawn[|t.drawn|].value]
                                      else Values(t.own + t.drawn, s)
  {
    var t' := Drawn(db, t, drawn);
    var last := t'.drawn[|t.drawn|];
    assert t'.own + t'.drawn == (t.own + t.drawn) + [last];
    assert (t.own + t.drawn + [last])[..|t.own + t.drawn|] == t.own + t.drawn;
  }

  lemma {:induction false} SerialDrawn(db: Db, t: Tx, s: Scope, hash: Scope -> int)
    requires ScopeOk(db, s) && TxScopeOk(db, t, s, hash)
    requires forall r | r in t.drawn :: r.scope != s
    ensures Highest(db.issued + t.own, s) == |Values(db.issued, s)| + |Values(t.own + t.drawn, s)|
  {
    NoneDrawn(t.drawn, s);
    ValuesAppend(t.own, t.drawn, s);
    ValuesAppend(db.issued, t.own, s);
    assert Values(t.own, s) + [] == Values(t.own, s);
    ConsecutiveJoin(|Values(db.issued, s)|, |Values(t.own, s)|);
    HighestIsCount(db.issued + t.own, s);
  }

  lemma {:induction false} SerialMoreOk(db: Db, t: Tx, t': Tx, s: Scope, hash: Scope -> int, k: nat, mine: seq<nat>)
    requires TxScopeOk(db, t, s, hash) && hash(s) in t'.held && s.SerialScope?
    requires k == |Values(db.issued, s)| && mine == Values(t.own + t.drawn, s)
    requires t'.bumped == t.bumped && t'.created == t.created
    requires Values(t'.own + t'.drawn, s) == mine + [k + |mine| + 1] == Consecutive(k, |mine| + 1)
    ensures TxScopeOk(db, t', s, hash)
  {
  }

  lemma {:induction false} DrawKeepsSerial(db: Db, t: Tx, s: Scope, hash: Scope -> int)
    requires ScopeOk(db, s) && TxScopeOk(db, t, s, hash) && hash(s) in t.held && s.SerialScope?
    requires forall r | r in t.drawn :: r.scope != s
    ensures TxScopeOk(db, Drawn(db, t, s), s, hash)
  {
    var k, mine := |Values(db.issued, s)|, Values(t.own + t.drawn, s);
    DrawAppends(db, t, s, s);
    SerialDrawn(db, t, s, hash);
    NextNumber(db, t, s, hash, k, mine);
    SerialMoreOk(db, t, Drawn(db, t, s), s, hash, k, mine);
  }

  lemma {:induction false} CountMore(scopes: seq<Scope>, s: Scope)
    ensures Count(scopes + [s], s) == Count(scopes, s) + 1
  {
    assert (scopes + [s])[..|scopes|] == scopes;
  }

  /** A number drawn from a counter: the next one, the counter moved to it, and the row created on first use. */
  lemma {:induction false} TypeDrawn(db: Db, t: Tx, s: Scope, hash: Scope -> int)
    requires ScopeOk(db, s) && TxScopeOk(db, t, s, hash) && s.TypeScope?
    ensures var next := |Values(db.issued, s)| + |Values(t.own + t.drawn, s)| + 1; var t' := Drawn(db, t, s);
      && t'.held == t.held && t'.bumped == t.bumped[s := next]
      && Values(t'.own + t'.drawn, s) == Values(t.own + t.drawn, s) + [next]
      && t'.created == if s in t.bumped || RowCount(db.counters, s) > 0 then t.created else t.created + [s]
  {
    DrawAppends(db, t, s, s);
  }

  /** One number more, the counter on it, and a row created at the first one where there is none. */
  lemma {:induction false} OneMoreOk(db: Db, t: Tx, t': Tx, s: Scope, hash: Scope -> int, k: nat, mine: seq<nat>)
    requires TxScopeOk(db, t, s, hash) && hash(s) in t'.held && s.TypeScope?
    requires k == |Values(db.issued, s)| && mine == Values(t.own + t.drawn, s)
    requires t'.bumped == t.bumped[s := k + |mine| + 1]
    requires Values(t'.own + t'.drawn, s) == mine + [k + |mine| + 1] == Consecutive(k, |mine| + 1)
    requires Count(t'.created, s)
          == Count(t.created, s) + if s in t.bumped || RowCount(db.counters, s) > 0 then 0 else 1
    ensures TxScopeOk(db, t', s, hash)
  {
  }

  lemma {:induction false} DrawnRow(db: Db, t: Tx, s: Scope)
    requires s.TypeScope?
    ensures Drawn(db, t, s).held == t.held
    ensures Count(Drawn(db, t, s).created, s)
         == Count(t.created, s) + if s in t.bumped || RowCount(db.counters, s) > 0 then 0 else 1
  {
    CountMore(t.created, s);
  }

  lemma {:induction false} NextNumber(db: Db, t: Tx, s: Scope, hash: Scope -> int, k: nat, mine: seq<nat>)
    requires ScopeOk(db, s) && TxScopeOk(db, t, s, hash)
    requires k == |Values(db.issued, s)| && mine == Values(t.own + t.drawn, s)
    ensures mine + [k + |mine| + 1] == Consecutive(k, |mine| + 1)
  {
    ConsecutiveJoin(k, |mine|);
  }

  /** What a draw from a counter leaves of the scope drawn from. */
  ghost predicate DrewOne(db: Db, t: Tx, t': Tx, s: Scope, k: nat, mine: seq<nat>) {
    && t'.held == t.held && t'.bumped == t.bumped[s := k + |mine| + 1]
    && Values(t'.own + t'.drawn, s) == mine + [k + |mine| + 1]
    && Count(t'.created, s) == Count(t.created, s) + if s in t.bumped || RowCount(db.counters, s) > 0 then 0 else 1
  }

  lemma {:induction false} DrawsOne(db: Db, t: Tx, t': Tx, s: Scope, hash: Scope -> int, k: nat, mine: seq<nat>)
    requires ScopeOk(db, s) && TxScopeOk(db, t, s, hash) && s.TypeScope? && t' == Drawn(db, t, s)
    requires k == |Values(db.issued, s)| && mine == Values(t.own + t.drawn, s)
    ensures DrewOne(db, t, t', s, k, mine)
  {
    TypeDrawn(db, t, s, hash);
    DrawnRow(db, t, s);
  }

  lemma {:induction false} DrewOneOk(db: Db, t: Tx, t': Tx, s: Scope, hash: Scope -> int, k: nat, mine: seq<nat>)
    requires ScopeOk(db, s) && TxScopeOk(db, t, s, hash) && hash(s) in t.held && s.TypeScope?
    requires k == |Values(db.issued, s)| && mine == Values(t.own + t.drawn, s) && DrewOne(db, t, t', s, k, mine)
    ensures TxScopeOk(db, t', s, hash)
  {
    NextNumber(db, t, s, hash, k, mine);
    OneMoreOk(db, t, t', s, hash, k, mine);
  }

  lemma {:induction false} DrawKeepsType(db: Db, t: Tx, t': Tx, s: Scope, hash: Scope -> int)
    requires ScopeOk(db, s) && TxScopeOk(db, t, s, hash) && hash(s) in t.held && s.TypeScope? && t' == Drawn(db, t, s)
    ensures TxScopeOk(db, t', s, hash)
  {
    var k, mine := |Values(db.issued, s)|, Values(t.own + t.drawn, s);
    DrawsOne(db, t, t', s, hash, k, mine);
    DrewOneOk(db, t, t', s, hash, k, mine);
  }

  /** A draw leaves the other scopes as they were. */
  ghost predicate LeavesAlone(t: Tx, t': Tx, s: Scope) {
    && t'.held == t.held && Values(t'.own + t'.drawn, s) == Values(t.own + t.drawn, s)
    && (s in t'.bumped <==> s in t.bumped) && (s in t.bumped ==> t'.bumped[s] == t.bumped[s])
    && (s in t'.created <==> s in t.created) && Count(t'.created, s) == Count(t.created, s)
  }

  lemma {:induction false} LeftAloneOk(db: Db, t: Tx, t': Tx, s: Scope, hash: Scope -> int)
    requires TxScopeOk(db, t, s, hash) && LeavesAlone(t, t', s)
    ensures TxScopeOk(db, t', s, hash)
  {
  }

  lemma {:induction false} DrawLeaves(db: Db, t: Tx, drawn: Scope, s: Scope)
    requires s != drawn
    ensures LeavesAlone(t, Drawn(db, t, drawn), s)
  {
    DrawAppends(db, t, drawn, s);
    CountOther(t.created, drawn, s);
  }

  lemma {:induction false} DrawKeepsOther(db: Db, t: Tx, drawn: Scope, s: Scope, hash: Scope -> int)
    requires TxScopeOk(db, t, s, hash) && s != drawn
    ensures TxScopeOk(db, Drawn(db, t, drawn), s, hash)
  {
    DrawLeaves(db, t, drawn, s);
    LeftAloneOk(db, t, Drawn(db, t, drawn), s, hash);
  }

  lemma {:induction false} CountOther(scopes: seq<Scope>, drawn: Scope, s: Scope)
    requires s != drawn
    ensures Count(scopes + [drawn], s) == Count(scopes, s)
    ensures s in scopes + [drawn] <==> s in scopes
  {
    assert (scopes + [drawn])[..|scopes|] == scopes;
  }

  lemma {:induction false} DrawKeeps(db: Db, t: Tx, drawn: Scope, s: Scope, hash: Scope -> int)
    requires ScopeOk(db, s) && TxScopeOk(db, t, s, hash) && hash(drawn) in t.held
    requires drawn.SerialScope? ==> forall r | r in t.drawn :: r.scope != drawn
    ensures TxScopeOk(db, Drawn(db, t, drawn), s, hash)
  {
    if s != drawn {
      DrawKeepsOther(db, t, drawn, s, hash);
    } else if s.TypeScope? {
      DrawKeepsType(db, t, Drawn(db, t, s), s, hash);
    } else {
      DrawKeepsSerial(db, t, s, hash);
    }
  }

  lemma {:induction false} InsertKeeps(db: Db, t: Tx, s: Scope, hash: Scope -> int)
    requires TxScopeOk(db, t, s, hash)
    ensures TxScopeOk(db, t.(own := t.own + t.drawn, drawn := []), s, hash)
  {
    assert (t.own + t.drawn) + [] == t.own + t.drawn;
  }

  lemma {:induction false} CommitKeepsScope(db: Db, t: Tx, s: Scope, hash: Scope -> int)
    requires ScopeOk(db, s) && TxScopeOk(db, t, s, hash) && t.drawn == []
    ensures ScopeOk(Committed(db, t), s)
  {
    assert t.own + t.drawn == t.own;
    ValuesAppend(db.issued, t.own, s);
    ConsecutiveJoin(|Values(db.issued, s)|, |Values(t.own, s)|);
    BumpRow(db.counters, t.bumped, s);
    NewRow(t.created, t.bumped, Bump(db.counters, t.bumped), s);
  }

  /** A commit leaves the scopes of every other transaction as they were. */
  lemma {:induction false} CommitKeepsOther(db: Db, u: Tx, t: Tx, s: Scope, hash: Scope -> int)
    requires ScopeOk(db, s) && TxScopeOk(db, u, s, hash) && TxScopeOk(db, t, s, hash) && u.held !! t.held && u.drawn == []
    ensures TxScopeOk(Committed(db, u), t, s, hash)
  {
    assert u.own + u.drawn == u.own;
    ValuesAppend(db.issued, u.own, s);
    BumpRow(db.counters, u.bumped, s);
    NewRow(u.created, u.bumped, Bump(db.counters, u.bumped), s);
    CountZero(u.created, s);
    CountZero(t.created, s);
    if hash(s) in u.held {
      assert hash(s) !in t.held;
      assert Values(t.own + t.drawn, s) == [];
    } else {
      assert Values(u.own, s) == [];
      assert Values(db.issued, s) + [] == Values(db.issued, s);
    }
  }

  /** A step that changes one transaction and nothing else. */
  lemma {:induction false} OneChanges(s: System, id: nat, t: Tx, s': System, hash: Scope -> int)
    requires SystemInv(s, hash) && s' == s.(txs := s.txs[id := t]) && TxOk(s.db, t, hash)
    requires forall other | other in s.txs && other != id :: s.txs[other].held !! t.held
    ensures SystemInv(s', hash)
  {
  }

  lemma {:induction false} BeginStep(s: System, id: nat, s': System, hash: Scope -> int)
    requires SystemInv(s, hash) && Next(s, Begin(id), s', hash)
    ensures SystemInv(s', hash)
  {
    forall sc ensures TxScopeOk(s.db, s'.txs[id], sc, hash) {
      assert ScopeOk(s.db, sc);
    }
    OneChanges(s, id, s'.txs[id], s', hash);
  }

  lemma {:induction false} LockStep(s: System, id: nat, scope: Scope, s': System, hash: Scope -> int)
    requires SystemInv(s, hash) && Next(s, Lock(id, scope), s', hash)
    ensures SystemInv(s', hash)
  {
    assert TxOk(s.db, s.txs[id], hash);
    forall sc ensures TxScopeOk(s.db, s'.txs[id], sc, hash) {
      assert TxScopeOk(s.db, s.txs[id], sc, hash);
    }
    OneChanges(s, id, s'.txs[id], s', hash);
  }

  lemma {:induction false} DrawStep(s: System, id: nat, scope: Scope, s': System, hash: Scope -> int)
    requires SystemInv(s, hash) && Next(s, Draw(id, scope), s', hash)
    ensures SystemInv(s', hash)
  {
    assert TxOk(s.db, s.txs[id], hash);
    forall sc ensures TxScopeOk(s.db, s'.txs[id], sc, hash) {
      assert ScopeOk(s.db, sc) && TxScopeOk(s.db, s.txs[id], sc, hash);
      DrawKeeps(s.db, s.txs[id], scope, sc, hash);
    }
    OneChanges(s, id, s'.txs[id], s', hash);
  }

  lemma {:induction false} InsertStep(s: System, id: nat, s': System, hash: Scope -> int)
    requires SystemInv(s, hash) && Next(s, Insert(id), s', hash)
    ensures SystemInv(s', hash)
  {
    assert TxOk(s.db, s.txs[id], hash);
    forall sc ensures TxScopeOk(s.db, s'.txs[id], sc, hash) {
      assert TxScopeOk(s.db, s.txs[id], sc, hash);
      InsertKeeps(s.db, s.txs[id], sc, hash);
    }
    OneChanges(s, id, s'.txs[id], s', hash);
  }

  lemma {:induction false} StepKeepsInv(s: System, e: Event, s': System, hash: Scope -> int)
    requires SystemInv(s, hash) && Next(s, e, s', hash)
    ensures SystemInv(s', hash)
  {
    match e {
      case Begin(id) => BeginStep(s, id, s', hash);
      case Lock(id, scope) => LockStep(s, id, scope, s', hash);
      case Draw(id, scope) => DrawStep(s, id, scope, s', hash);
      case Insert(id) => InsertStep(s, id, s', hash);
      case Commit(id) => CommitStep(s, id, s', hash);
      case Abort(id) =>
    }
  }

  lemma {:induction false} CommitStep(s: System, id: nat, s': System, hash: Scope -> int)
    requires SystemInv(s, hash) && Next(s, Commit(id), s', hash)
    ensures SystemInv(s', hash)
  {
    var u := s.txs[id];
    forall sc ensures ScopeOk(s'.db, sc) {
      assert ScopeOk(s.db, sc) && TxScopeOk(s.db, u, sc, hash);
      CommitKeepsScope(s.db, u, sc, hash);
    }
    forall other, sc | other in s'.txs ensures TxScopeOk(s'.db, s'.txs[other], sc, hash) {
      assert TxOk(s.db, s.txs[other], hash);
      assert ScopeOk(s.db, sc) && TxScopeOk(s.db, u, sc, hash) && TxScopeOk(s.db, s.txs[other], sc, hash);
      CommitKeepsOther(s.db, u, s.txs[other], sc, hash);
    }
    assert forall other | other in s'.txs :: TxOk(s'.db, s'.txs[other], hash);
  }

  // ---------------------------------------------------------------- whole runs

  ghost predicate IsRun(states: seq<System>, events: seq<Event>, hash: Scope -> int) {
    && |states| == |events| + 1
    && states[0] == System(Db([], []), map[])
    && forall i | 0 <= i < |events| :: Next(states[i], events[i], states[i + 1], hash)
  }

  /**
   Under any interleaving with aborts, and any lock hash, the committed numbers of every scope are
   exactly 1 .. k in commit order, and a type scope has at most one counter row, which says k.
   */
  lemma {:induction false} NumbersConsecutive(states: seq<System>, events: seq<Event>, hash: Scope -> int, scope: Scope)
    requires IsRun(states, events, hash)
    ensures SystemInv(states[|events|], hash)
    ensures var db := states[|events|].db; var k := |Values(db.issued, scope)|;
      && Values(db.issued, scope) == Consecutive(0, k)
      && (scope.TypeScope? ==> RowCount(db.counters, scope) <= 1 && LastNo(db.counters, scope) == k)
  {
    if events == [] {
      assert forall s :: ScopeOk(states[0].db, s);
    } else {
      var n := |events| - 1;
      assert IsRun(states[..n + 1], events[..n], hash) by {
        forall i | 0 <= i < n ensures Next(states[..n + 1][i], events[..n][i], states[..n + 1][i + 1], hash) {
          assert Next(states[i], events[i], states[i + 1], hash);
        }
      }
      NumbersConsecutive(states[..n + 1], events[..n], hash, scope);
      assert Next(states[n], events[n], states[n + 1], hash);
      StepKeepsInv(states[n], events[n], states[n + 1], hash);
      assert ScopeOk(states[n + 1].db, scope);
    }
  }

  /** No number is issued twice in a scope. */
  lemma {:induction false} NumbersDistinct(states: seq<System>, events: seq<Event>, hash: Scope -> int, scope: Scope, i: nat, j: nat)
    requires IsRun(states, events, hash)
    requires i < j < |Values(states[|events|].db.issued, scope)|
    ensures Values(states[|events|].db.issued, scope)[i] < Values(states[|events|].db.issued, scope)[j]
  {
    NumbersConsecutive(states, events, hash, scope);
  }
}
