/**
 The order in which a sync locks credit rows (src/common/posting/bill-adjustment.helper.ts): those it undoes as
 the log gives them, those it posts against as the request names them, the invoice's own last, all held to the
 end.  Nothing sorts them, so transactions can wait for each other in a circle: two of them exactly when the
 first row each comes to that the other also wants is not the same.
 */
module SetOffLocks {
  import opened Prelude
  import opened SetOff
  import opened SetOffLog
  import SetOffRuns

  // ---------------------------------------------------------------- the order of a sync

  function RowsOf(ctx: Context, op: Op): seq<Key> {
    match op
    case Undo(_, row, _) => if row.bill.id == ctx.bill.id then [] else [row.bill]
    case Post(line, _, _) => [line.Credit()]
    case Settle(_) => [ctx.bill]
  }

  /** The rows a list of operations locks, in turn. */
  function OrderOf(ctx: Context, ops: seq<Op>): seq<Key> {
    if ops == [] then [] else OrderOf(ctx, ops[..|ops| - 1]) + RowsOf(ctx, ops[|ops| - 1])
  }

  /** They are the rows the operations touch. */
  lemma {:induction false} OrderTouches(ctx: Context, ops: seq<Op>, key: Key)
    ensures key in OrderOf(ctx, ops) <==> exists i | 0 <= i < |ops| :: key in SetOffRuns.Touches(ctx, ops[i])
  {
    if ops != [] {
      var n := |ops| - 1;
      OrderTouches(ctx, ops[..n], key);
      assert forall i | 0 <= i < n :: ops[..n][i] == ops[i];
      assert key in RowsOf(ctx, ops[n]) <==> key in SetOffRuns.Touches(ctx, ops[n]);
    }
  }

  /** In the order of the operations. */
  lemma {:induction false} OrderConcat(ctx: Context, a: seq<Op>, c: seq<Op>, op: Op)
    ensures OrderOf(ctx, a + c) == OrderOf(ctx, a) + OrderOf(ctx, c)
    ensures OrderOf(ctx, [op]) == RowsOf(ctx, op)
  {
    assert [op][..0] == [];
    if c == [] {
      assert a + c == a;
    } else {
      var n := |c| - 1;
      assert (a + c)[..|a + c| - 1] == a + c[..n];
      OrderConcat(ctx, a, c[..n], op);
    }
  }

  function Credits(lines: seq<Line>): (keys: seq<Key>)
    ensures |keys| == |lines|
    ensures forall k | 0 <= k < |lines| :: keys[k] == lines[k].Credit()
  {
    seq(|lines|, k requires 0 <= k < |lines| => lines[k].Credit())
  }

  lemma {:induction false} OrderOfPosts(ctx: Context, lines: seq<Line>, no: nat, ops: seq<Op>)
    requires ops == PostOps(lines, no)
    ensures OrderOf(ctx, ops) == Credits(lines)
  {
    if lines != [] {
      var n := |lines| - 1;
      assert ops[..n] == PostOps(lines[..n], no);
      OrderOfPosts(ctx, lines[..n], no, ops[..n]);
      assert Credits(lines) == Credits(lines[..n]) + [lines[n].Credit()];
    } else {
      assert Credits(lines) == [];
    }
  }

  /** A settlement of an invoice with nothing standing: the credits as requested, then the invoice. */
  lemma {:induction false} OrderOfSettlement(ctx: Context, lines: seq<Line>, no: nat, adjusted: int)
    ensures OrderOf(ctx, PostOps(lines, no) + [Settle(adjusted)]) == Credits(lines) + [ctx.bill]
  {
    var ops := PostOps(lines, no);
    OrderOfPosts(ctx, lines, no, ops);
    assert (ops + [Settle(adjusted)])[..|ops|] == ops;
  }

  // ---------------------------------------------------------------- waiting

  /** A transaction that has locked the first `got` rows of its order. */
  datatype Worker = Worker(order: seq<Key>, got: nat) {
    predicate Holds(key: Key) { got <= |order| && key in order[..got] }

    /** It wants its next row and another transaction holds that. */
    predicate BlockedBy(other: Worker) { got < |order| && other.Holds(order[got]) }
  }

  type Workers = map<nat, Worker>

  datatype Turn = Start(id: nat, order: seq<Key>) | Take(id: nat) | End(id: nat)

  /** A row the transaction itself has locked is taken again at once. */
  ghost predicate Next(s: Workers, e: Turn, s': Workers) {
    match e
    case Start(id, order) => id !in s && s' == s[id := Worker(order, 0)]
    case Take(id) =>
      && id in s && s[id].got < |s[id].order|
      && (forall other | other in s && other != id :: !s[other].Holds(s[id].order[s[id].got]))
      && s' == s[id := s[id].(got := s[id].got + 1)]
    case End(id) => id in s && s' == s - {id}
  }

  ghost predicate IsRun(states: seq<Workers>, turns: seq<Turn>, workload: set<seq<Key>>) {
    && |states| == |turns| + 1 && states[0] == map[]
    && (forall k | 0 <= k < |turns| :: Next(states[k], turns[k], states[k + 1]))
    && (forall k | 0 <= k < |turns| && turns[k].Start? :: turns[k].order in workload)
  }

  /** Different transactions, each blocked by the next and the last by the first. */
  ghost predicate IsCycle(s: Workers, ids: seq<nat>) {
    && |ids| > 1 && (forall k | 0 <= k < |ids| :: ids[k] in s)
    && (forall k, l | 0 <= k < l < |ids| :: ids[k] != ids[l])
    && (forall k | 0 <= k < |ids| - 1 :: s[ids[k]].BlockedBy(s[ids[k + 1]]))
    && s[ids[|ids| - 1]].BlockedBy(s[ids[0]])
  }

  ghost predicate Deadlocks(states: seq<Workers>, turns: seq<Turn>, workload: set<seq<Key>>, ids: seq<nat>) {
    IsRun(states, turns, workload) && IsCycle(states[|turns|], ids)
  }

  ghost predicate CanDeadlock(workload: set<seq<Key>>) {
    exists states, turns, ids :: Deadlocks(states, turns, workload, ids)
  }

  // ---------------------------------------------------------------- what makes a cycle

  ghost predicate Disjoint(v: Worker, w: Worker) { forall key :: !(v.Holds(key) && w.Holds(key)) }

  /** Orders of the workload, each cut at a row that the next holds, with nothing held in common. */
  ghost predicate Tangle(ws: seq<Worker>, workload: set<seq<Key>>) {
    && |ws| > 1 && (forall k | 0 <= k < |ws| :: ws[k].order in workload)
    && (forall k, l | 0 <= k < l < |ws| :: Disjoint(ws[k], ws[l]))
    && (forall k | 0 <= k < |ws| - 1 :: ws[k].BlockedBy(ws[k + 1]))
    && ws[|ws| - 1].BlockedBy(ws[0])
  }

  ghost predicate WorkersInv(s: Workers, workload: set<seq<Key>>) {
    && (forall i | i in s :: s[i].order in workload)
    && (forall i, k | i in s && k in s && i != k :: Disjoint(s[i], s[k]))
  }

  lemma {:induction false} TakeKeeps(s: Workers, id: nat, s': Workers, workload: set<seq<Key>>)
    requires WorkersInv(s, workload) && Next(s, Take(id), s')
    ensures WorkersInv(s', workload)
  {
    var key := s[id].order[s[id].got];
    assert forall k :: s'[id].Holds(k) ==> s[id].Holds(k) || k == key;
    forall i, k | i in s' && k in s' && i != k ensures Disjoint(s'[i], s'[k]) {
      assert Disjoint(s[i], s[k]);
      if i == id { assert !s[k].Holds(key); }
      if k == id { assert !s[i].Holds(key); }
    }
  }

  lemma {:induction false} RunKeepsInv(states: seq<Workers>, turns: seq<Turn>, workload: set<seq<Key>>)
    requires IsRun(states, turns, workload)
    ensures WorkersInv(states[|turns|], workload)
  {
    if turns != [] {
      var n := |turns| - 1;
      assert IsRun(states[..n + 1], turns[..n], workload);
      RunKeepsInv(states[..n + 1], turns[..n], workload);
      assert Next(states[n], turns[n], states[n + 1]);
      if turns[n].Take? { TakeKeeps(states[n], turns[n].id, states[n + 1], workload); }
    }
  }

  lemma {:induction false} CycleTangles(s: Workers, ids: seq<nat>, workload: set<seq<Key>>) returns (ws: seq<Worker>)
    requires WorkersInv(s, workload) && IsCycle(s, ids)
    ensures Tangle(ws, workload)
  {
    ws := seq(|ids|, k requires 0 <= k < |ids| => s[ids[k]]);
  }

  // ---------------------------------------------------------------- every tangle is reached

  ghost predicate Leads(states: seq<Workers>, turns: seq<Turn>, workload: set<seq<Key>>, end: Workers) {
    IsRun(states, turns, workload) && states[|turns|] == end
  }

  lemma {:induction false} OneMore(states: seq<Workers>, turns: seq<Turn>, workload: set<seq<Key>>, mid: Workers, e: Turn, end: Workers)
    requires Leads(states, turns, workload, mid) && Next(mid, e, end) && (e.Start? ==> e.order in workload)
    ensures Leads(states + [end], turns + [e], workload, end)
  {
    var all, es := states + [end], turns + [e];
    forall k | 0 <= k < |es| ensures Next(all[k], es[k], all[k + 1]) {
      if k < |turns| { assert Next(states[k], turns[k], states[k + 1]); }
    }
  }

  /** The first n of them, the last with only `got` of its rows. */
  ghost function Partly(ws: seq<Worker>, n: nat, got: nat): Workers
    requires n <= |ws|
  {
    map k: nat | k < n :: if k == n - 1 then ws[k].(got := got) else ws[k]
  }

  ghost function Built(ws: seq<Worker>, n: nat): Workers
    requires n <= |ws|
  {
    map k: nat | k < n :: ws[k]
  }

  lemma {:induction false} TakesOne(ws: seq<Worker>, n: nat, got: nat)
    requires n < |ws| && got < ws[n].got <= |ws[n].order|
    requires forall k, l | 0 <= k < l < |ws| :: Disjoint(ws[k], ws[l])
    ensures Next(Partly(ws, n + 1, got), Take(n), Partly(ws, n + 1, got + 1))
  {
    var s, s' := Partly(ws, n + 1, got), Partly(ws, n + 1, got + 1);
    var key := ws[n].order[got];
    assert ws[n].order[..ws[n].got][got] == key;
    assert ws[n].Holds(key);
    forall other | other in s && other != n ensures !s[other].Holds(key) {
      assert Disjoint(ws[other], ws[n]);
    }
    assert s' == s[n := s[n].(got := got + 1)];
  }

  ghost predicate Buildable(ws: seq<Worker>, workload: set<seq<Key>>) {
    && (forall k | 0 <= k < |ws| :: ws[k].order in workload && ws[k].got <= |ws[k].order|)
    && (forall k, l | 0 <= k < l < |ws| :: Disjoint(ws[k], ws[l]))
  }

  lemma {:induction false} StartsOne(ws: seq<Worker>, n: nat)
    requires n < |ws|
    ensures Next(Built(ws, n), Start(n, ws[n].order), Partly(ws, n + 1, 0))
  {
    assert Partly(ws, n + 1, 0) == Built(ws, n)[n := Worker(ws[n].order, 0)];
  }

  lemma {:induction false} Whole(ws: seq<Worker>, n: nat)
    requires n < |ws|
    ensures Partly(ws, n + 1, ws[n].got) == Built(ws, n + 1)
  {
  }

  ghost predicate Reached(end: Workers, workload: set<seq<Key>>) {
    exists states, turns :: Leads(states, turns, workload, end)
  }

  lemma {:induction false} ReachMore(workload: set<seq<Key>>, mid: Workers, e: Turn, end: Workers)
    requires Reached(mid, workload) && Next(mid, e, end) && (e.Start? ==> e.order in workload)
    ensures Reached(end, workload)
  {
    var states, turns :| Leads(states, turns, workload, mid);
    OneMore(states, turns, workload, mid, e, end);
  }

  /** One after the other they lock what they hold, and nobody is in the way. */
  lemma {:induction false} Build(ws: seq<Worker>, n: nat, workload: set<seq<Key>>)
    requires n <= |ws| && Buildable(ws, workload)
    ensures Reached(Built(ws, n), workload)
  {
    if n == 0 {
      assert Leads([map[]], [], workload, Built(ws, 0)) by { assert Built(ws, 0) == map[]; }
    } else {
      Build(ws, n - 1, workload);
      StartsOne(ws, n - 1);
      ReachMore(workload, Built(ws, n - 1), Start(n - 1, ws[n - 1].order), Partly(ws, n, 0));
      TakeUp(ws, n - 1, ws[n - 1].got, workload);
      Whole(ws, n - 1);
    }
  }

  lemma {:induction false} TakeUp(ws: seq<Worker>, n: nat, got: nat, workload: set<seq<Key>>)
    requires n < |ws| && got <= ws[n].got && Buildable(ws, workload)
    requires Reached(Partly(ws, n + 1, 0), workload)
    ensures Reached(Partly(ws, n + 1, got), workload)
  {
    if got > 0 {
      TakeUp(ws, n, got - 1, workload);
      TakesOne(ws, n, got - 1);
      ReachMore(workload, Partly(ws, n + 1, got - 1), Take(n), Partly(ws, n + 1, got));
    }
  }

  lemma {:induction false} TangleDeadlocks(ws: seq<Worker>, workload: set<seq<Key>>)
    returns (states: seq<Workers>, turns: seq<Turn>, ids: seq<nat>)
    requires Tangle(ws, workload)
    ensures Deadlocks(states, turns, workload, ids)
  {
    var n := |ws| - 1;
    forall k | 0 <= k < |ws| ensures ws[k].got <= |ws[k].order| {
      assert k < n ==> ws[k].BlockedBy(ws[k + 1]);
    }
    Build(ws, |ws|, workload);
    states, turns :| Leads(states, turns, workload, Built(ws, |ws|));
    ids := seq(|ws|, k => k);
  }

  /** A workload can end in a wait cycle if and only if orders of it, cut somewhere, tangle. */
  lemma {:induction false} DeadlockIff(workload: set<seq<Key>>)
    ensures CanDeadlock(workload) <==> exists ws :: Tangle(ws, workload)
  {
    if CanDeadlock(workload) {
      var states, turns, ids :| Deadlocks(states, turns, workload, ids);
      RunKeepsInv(states, turns, workload);
      var ws := CycleTangles(states[|turns|], ids, workload);
    }
    if ws :| Tangle(ws, workload) {
      var states, turns, ids := TangleDeadlocks(ws, workload);
    }
  }

  // ---------------------------------------------------------------- a common order

  /** Rows are taken in the order of a rank; one may come again. */
  ghost predicate InOrder(order: seq<Key>, rank: Key -> int) {
    forall i, k | 0 <= i < k < |order| :: order[i] == order[k] || rank(order[i]) < rank(order[k])
  }

  lemma {:induction false} RankRises(v: Worker, w: Worker, rank: Key -> int)
    requires InOrder(v.order, rank) && InOrder(w.order, rank) && Disjoint(v, w)
    requires v.BlockedBy(w) && w.got < |w.order| && !w.Holds(w.order[w.got])
    ensures rank(v.order[v.got]) < rank(w.order[w.got])
  {
    var i :| 0 <= i < w.got && w.order[..w.got][i] == v.order[v.got];
    assert w.order[i] in w.order[..w.got];
  }

  /** In a tangle nobody wants what it holds: the next one holds it. */
  lemma {:induction false} WantsNew(ws: seq<Worker>, workload: set<seq<Key>>, k: nat)
    requires Tangle(ws, workload) && k < |ws|
    ensures ws[k].got < |ws[k].order| && !ws[k].Holds(ws[k].order[ws[k].got])
  {
    var next := if k + 1 < |ws| then k + 1 else 0;
    assert ws[k].BlockedBy(ws[next]);
    assert k < next ==> Disjoint(ws[k], ws[next]);
    assert next < k ==> Disjoint(ws[next], ws[k]);
  }

  lemma {:induction false} RanksRise(ws: seq<Worker>, workload: set<seq<Key>>, rank: Key -> int, k: nat)
    requires Tangle(ws, workload) && k < |ws| && forall order | order in workload :: InOrder(order, rank)
    ensures ws[0].got < |ws[0].order| && ws[k].got < |ws[k].order|
    ensures rank(ws[0].order[ws[0].got]) + k <= rank(ws[k].order[ws[k].got])
  {
    WantsNew(ws, workload, k);
    if k > 0 {
      RanksRise(ws, workload, rank, k - 1);
      RankRises(ws[k - 1], ws[k], rank);
    }
  }

  /** Transactions that all take rows in one order never wait in a circle. */
  lemma {:induction false} OrderedNeverDeadlocks(workload: set<seq<Key>>, rank: Key -> int)
    requires forall order | order in workload :: InOrder(order, rank)
    ensures !CanDeadlock(workload)
  {
    DeadlockIff(workload);
    forall ws ensures !Tangle(ws, workload) {
      if Tangle(ws, workload) {
        var last := |ws| - 1;
        RanksRise(ws, workload, rank, last);
        WantsNew(ws, workload, 0);
        assert Disjoint(ws[0], ws[last]);
        RankRises(ws[last], ws[0], rank);
      }
    }
  }

  // ---------------------------------------------------------------- two orders

  /** Where the first key of `a` stands that is one of `keys`; its length when there is none. */
  function FirstIn(a: seq<Key>, keys: seq<Key>): (n: nat)
    ensures n <= |a| && (n < |a| ==> a[n] in keys)
    ensures forall i | 0 <= i < n :: a[i] !in keys
  {
    if a == [] then 0
    else
      var n := FirstIn(a[..|a| - 1], keys);
      if n < |a| - 1 || a[|a| - 1] in keys then n else |a|
  }

  /** The first row of `a` that `b` names too. */
  function FirstShared(a: seq<Key>, b: seq<Key>): Option<Key> {
    var n := FirstIn(a, b);
    if n < |a| then Some(a[n]) else None
  }

  /** One that another waits for holds the first row the two share. */
  lemma {:induction false} HoldsShared(v: Worker, w: Worker)
    requires w.BlockedBy(v)
    ensures FirstShared(v.order, w.order).Some? && v.Holds(FirstShared(v.order, w.order).value)
  {
    var i :| 0 <= i < v.got && v.order[..v.got][i] == w.order[w.got];
    var n := FirstIn(v.order, w.order);
    assert v.order[i] in w.order && n <= i;
    assert v.order[..v.got][n] == v.order[n];
  }

  lemma {:induction false} TangledPair(v: Worker, w: Worker)
    requires Disjoint(v, w) && v.BlockedBy(w) && w.BlockedBy(v)
    ensures FirstShared(v.order, w.order) != FirstShared(w.order, v.order)
  {
    HoldsShared(v, w);
    HoldsShared(w, v);
  }

  /** Two that hold something hold the same row if their orders are the same. */
  lemma {:induction false} SameOrderSameFirst(v: Worker, w: Worker, key: Key, key': Key)
    requires v.Holds(key) && w.Holds(key') && Disjoint(v, w)
    ensures v.order != w.order
  {
    assert v.order[..v.got][0] == v.order[0] && w.order[..w.got][0] == w.order[0];
    assert v.Holds(v.order[0]) && w.Holds(w.order[0]);
  }

  lemma {:induction false} HoldsSomething(ws: seq<Worker>, workload: set<seq<Key>>, k: nat) returns (key: Key)
    requires Tangle(ws, workload) && k < |ws|
    ensures ws[k].Holds(key)
  {
    var before := if k > 0 then k - 1 else |ws| - 1;
    assert ws[before].BlockedBy(ws[k]);
    key := ws[before].order[ws[before].got];
  }

  lemma {:induction false} OrdersDiffer(ws: seq<Worker>, workload: set<seq<Key>>, k: nat, l: nat)
    requires Tangle(ws, workload) && k < l < |ws|
    ensures ws[k].order != ws[l].order
  {
    var key := HoldsSomething(ws, workload, k);
    var key' := HoldsSomething(ws, workload, l);
    SameOrderSameFirst(ws[k], ws[l], key, key');
  }

  lemma {:induction false} TangleOfTwo(a: seq<Key>, b: seq<Key>, ws: seq<Worker>)
    requires Tangle(ws, {a, b})
    ensures FirstShared(a, b) != FirstShared(b, a)
  {
    OrdersDiffer(ws, {a, b}, 0, 1);
    if |ws| > 2 {
      OrdersDiffer(ws, {a, b}, 0, 2);
      OrdersDiffer(ws, {a, b}, 1, 2);
    }
    TangledPair(ws[0], ws[1]);
  }

  /** Cut before x in `b`, and in `a` at the first row taken by then: a tangle. */
  lemma {:induction false} SharedTangle(a: seq<Key>, b: seq<Key>) returns (ws: seq<Worker>)
    requires FirstShared(a, b) != FirstShared(b, a)
    ensures Tangle(ws, {a, b})
  {
    var i, k := FirstIn(a, b), FirstIn(b, a);
    assert i < |a| && k < |b|;
    var m := FirstIn(b, [a[i]]);
    assert b[..m][k] == b[k];
    var n := FirstIn(a, b[..m]);
    assert i < n < |a|;
    assert a[..n][i] == a[i];
    var v, w := Worker(a, n), Worker(b, m);
    assert v.BlockedBy(w) && w.BlockedBy(v);
    assert Disjoint(v, w);
    ws := [v, w];
  }

  /**
   Any number of transactions of two orders: they can wait in a circle if and only if the first row of the one
   that the other names too is not the first row of the other that the one names too.
   */
  lemma {:induction false} PairDeadlockIff(a: seq<Key>, b: seq<Key>)
    ensures CanDeadlock({a, b}) <==> FirstShared(a, b) != FirstShared(b, a)
  {
    DeadlockIff({a, b});
    if ws :| Tangle(ws, {a, b}) {
      TangleOfTwo(a, b, ws);
    }
    if FirstShared(a, b) != FirstShared(b, a) {
      var ws := SharedTangle(a, b);
    }
  }

  lemma {:induction false} SharedCredits(a: seq<Key>, x: Key, b: seq<Key>, y: Key)
    requires x != y && x !in b && y !in a
    ensures FirstShared(a + [x], b + [y]) == FirstShared(a, b)
  {
    var n, m := FirstIn(a, b), FirstIn(a + [x], b + [y]);
    assert forall i | 0 <= i < |a| :: (a + [x])[i] == a[i] && (a[i] in b + [y] <==> a[i] in b);
    assert m < |a| ==> n <= m;
    assert n < |a| ==> m <= n;
  }

  /**
   Two settlements of different invoices with nothing standing, sent any number of times, can deadlock if and
   only if the first credit of the one request that the other names is not the first of the other that it names.
   */
  lemma {:induction false} SettlementsDeadlockIff(
    balances: Balances, c: Context, lines: seq<Line>, no: nat, sum: int, d: Context, lines': seq<Line>, no': nat, sum': int)
    requires InvoiceOk(balances, c) && InvoiceOk(balances, d) && c.bill != d.bill
    requires forall k | 0 <= k < |lines| :: OnSide(balances, lines[k].Credit(), CR)
    requires forall k | 0 <= k < |lines'| :: OnSide(balances, lines'[k].Credit(), CR)
    ensures var a, b := OrderOf(c, PostOps(lines, no) + [Settle(sum)]), OrderOf(d, PostOps(lines', no') + [Settle(sum')]);
      CanDeadlock({a, b}) <==> FirstShared(Credits(lines), Credits(lines')) != FirstShared(Credits(lines'), Credits(lines))
  {
    OrderOfSettlement(c, lines, no, sum);
    OrderOfSettlement(d, lines', no', sum');
    PairDeadlockIff(Credits(lines) + [c.bill], Credits(lines') + [d.bill]);
    SharedCredits(Credits(lines), c.bill, Credits(lines'), d.bill);
    SharedCredits(Credits(lines'), d.bill, Credits(lines), c.bill);
  }
}
