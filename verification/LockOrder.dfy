/**
 The two advisory locks of one posting call.  Posting takes the company's serial lock and then the
 voucher type's; a reversal takes the reversal type's lock and then the serial
 (src/common/posting/voucher-posting.service.ts).  Although the orders are opposite, no wait cycle
 forms, because a type lock names the company and year whose serial lock its poster already holds --
 unless a document is posted in the reversal type.  Locks are told apart by scope, that is, the lock
 hashes do not collide.
 */
module LockOrder {
  import opened Prelude
  import opened Numbering

  /** A post may come with its number already drawn and then takes no type lock. */
  datatype Call = PostCall(serial: Scope, number: Option<Scope>) | ReverseCall(counter: Scope, serial: Scope)

  predicate WellFormed(c: Call) {
    && c.serial.SerialScope?
    && match c
       case PostCall(serial, number) => number.Some? ==> OfBooks(number.value, serial)
       case ReverseCall(counter, serial) => OfBooks(counter, serial)
  }

  /** A type scope of the company and year of a serial scope. */
  predicate OfBooks(number: Scope, serial: Scope) {
    number.TypeScope? && serial.SerialScope? && number.company == serial.company && number.year == serial.year
  }

  /** The locks of a call, in the order it takes them. */
  function Wanted(c: Call): seq<Scope> {
    match c
    case PostCall(serial, number) => if number.Some? then [serial, number.value] else [serial]
    case ReverseCall(counter, serial) => [counter, serial]
  }

  /** The calls there are: a post of some books, with or without a number of its own type there, and a reversal. */
  lemma {:induction false} CallsAre(c: Call)
    ensures WellFormed(c) <==> exists company, year ::
      || c == PostCall(SerialScope(company, year), None)
      || (exists kind, branch, device, period ::
            || c == PostCall(SerialScope(company, year), Some(TypeScope(kind, company, branch, year, device, period)))
            || c == ReverseCall(TypeScope(kind, company, branch, year, device, period), SerialScope(company, year)))
  {
    if WellFormed(c) && c.ReverseCall? {
      assert c == ReverseCall(TypeScope(c.counter.kind, c.counter.company, c.counter.branch, c.counter.year, c.counter.device,
                                        c.counter.period), SerialScope(c.counter.company, c.counter.year));
    } else if WellFormed(c) && c.number.Some? {
      var n := c.number.value;
      assert c == PostCall(SerialScope(n.company, n.year), Some(TypeScope(n.kind, n.company, n.branch, n.year, n.device, n.period)));
    } else if WellFormed(c) {
      assert c == PostCall(SerialScope(c.serial.company, c.serial.year), None);
    }
  }

  /** A transaction that has taken the first `got` of its locks. */
  datatype Worker = Worker(call: Call, got: nat)

  type Workers = map<nat, Worker>

  predicate Holds(w: Worker, lock: Scope) {
    w.got <= |Wanted(w.call)| && lock in Wanted(w.call)[..w.got]
  }

  datatype Event = Start(id: nat, call: Call) | Take(id: nat) | End(id: nat)

  ghost predicate Next(s: Workers, e: Event, s': Workers) {
    match e
    case Start(id, call) => id !in s && WellFormed(call) && s' == s[id := Worker(call, 0)]
    case Take(id) =>
      && id in s && s[id].got < |Wanted(s[id].call)|
      && (forall other | other in s && other != id :: !Holds(s[other], Wanted(s[id].call)[s[id].got]))
      && s' == s[id := s[id].(got := s[id].got + 1)]
    case End(id) => id in s && s' == s - {id}
  }

  /** i is blocked on a lock that j holds. */
  ghost predicate Waits(s: Workers, i: nat, j: nat) {
    && i in s && j in s && i != j
    && s[i].got < |Wanted(s[i].call)| && Holds(s[j], Wanted(s[i].call)[s[i].got])
  }

  ghost predicate IsCycle(s: Workers, cycle: seq<nat>) {
    && |cycle| > 0
    && Waits(s, cycle[|cycle| - 1], cycle[0])
    && forall k | 0 <= k < |cycle| - 1 :: Waits(s, cycle[k], cycle[k + 1])
  }

  // ---------------------------------------------------------------- the invariant

  ghost predicate NoSharing(s: Workers, i: nat, j: nat) {
    i in s && j in s && i != j ==> forall lock :: !(Holds(s[i], lock) && Holds(s[j], lock))
  }

  ghost predicate WorkersInv(s: Workers) {
    && (forall i | i in s :: WellFormed(s[i].call) && s[i].got <= |Wanted(s[i].call)|)
    && (forall i, j {:trigger NoSharing(s, i, j)} :: NoSharing(s, i, j))
  }

  lemma {:induction false} StepKeepsInv(s: Workers, e: Event, s': Workers)
    requires WorkersInv(s) && Next(s, e, s')
    ensures WorkersInv(s')
  {
    forall i, j ensures NoSharing(s', i, j) {
      assert NoSharing(s, i, j);
      if e.Take? && i in s && j in s {
        var taken := Wanted(s[e.id].call)[s[e.id].got];
        assert forall lock :: Holds(s'[e.id], lock) ==> Holds(s[e.id], lock) || lock == taken;
      }
    }
  }

  // ---------------------------------------------------------------- waiting goes downhill

  /** A post and a reversal that draw on the same counter. */
  ghost predicate Clash(a: Call, b: Call) {
    a.PostCall? && b.ReverseCall? && a.number == Some(b.counter)
  }

  ghost predicate NoClash(s: Workers) {
    forall i, j | i in s && j in s :: !Clash(s[i].call, s[j].call)
  }

  /** A poster past its serial lock, and anyone with all its locks, waits for nobody. */
  ghost function Rank(w: Worker): nat {
    if w.got == |Wanted(w.call)| then 0
    else if w.call.PostCall? then (if w.got == 0 then 1 else 0)
    else if w.got == 0 then 2 else 1
  }

  lemma {:induction false} WaitsDownhill(s: Workers, i: nat, j: nat)
    requires WorkersInv(s) && NoClash(s) && Waits(s, i, j)
    ensures Rank(s[j]) < Rank(s[i])
  {
    var a, b := s[i], s[j];
    var lock := Wanted(a.call)[a.got];
    assert NoSharing(s, i, j);
    assert !Clash(a.call, b.call) && !Clash(b.call, a.call);
    assert WellFormed(a.call) && WellFormed(b.call);
    if a.call.PostCall? && a.got == 1 {
      // Only a poster of the same books could hold the type lock, and it would hold our serial lock.
      assert b.call.PostCall? && b.got == 2 && b.call.serial == a.call.serial;
      assert Wanted(a.call)[..1][0] == a.call.serial && Wanted(b.call)[..2][0] == a.call.serial;
      assert Holds(a, a.call.serial) && Holds(b, a.call.serial);
    }
  }

  lemma {:induction false} CycleDescends(s: Workers, cycle: seq<nat>, k: nat)
    requires WorkersInv(s) && NoClash(s) && IsCycle(s, cycle) && k < |cycle|
    ensures cycle[0] in s && cycle[k] in s && Rank(s[cycle[k]]) + k <= Rank(s[cycle[0]])
  {
    if k > 0 {
      CycleDescends(s, cycle, k - 1);
      assert Waits(s, cycle[k - 1], cycle[k]);
      WaitsDownhill(s, cycle[k - 1], cycle[k]);
    }
  }

  lemma {:induction false} NoCycle(s: Workers, cycle: seq<nat>)
    requires WorkersInv(s) && NoClash(s)
    ensures !IsCycle(s, cycle)
  {
    if IsCycle(s, cycle) {
      CycleDescends(s, cycle, |cycle| - 1);
      WaitsDownhill(s, cycle[|cycle| - 1], cycle[0]);
    }
  }

  ghost predicate CanGo(s: Workers, i: nat) { i in s && forall j :: !Waits(s, i, j) }

  /** Whoever is blocked, somebody down the line can go on. */
  lemma {:induction false} SomeoneCanGo(s: Workers, i: nat) returns (j: nat)
    requires WorkersInv(s) && NoClash(s) && i in s
    ensures CanGo(s, j)
    decreases Rank(s[i])
  {
    if k :| Waits(s, i, k) {
      WaitsDownhill(s, i, k);
      j := SomeoneCanGo(s, k);
    } else {
      j := i;
    }
  }

  // ---------------------------------------------------------------- whole runs

  /** A run of transactions each making one call out of a workload. */
  ghost predicate IsRun(states: seq<Workers>, events: seq<Event>, workload: set<Call>) {
    && |states| == |events| + 1
    && states[0] == map[]
    && (forall k | 0 <= k < |events| :: Next(states[k], events[k], states[k + 1]))
    && (forall k | 0 <= k < |events| && events[k].Start? :: events[k].call in workload)
  }

  ghost predicate FromWorkload(s: Workers, workload: set<Call>) {
    forall i | i in s :: s[i].call in workload
  }

  lemma {:induction false} RunKeepsInv(states: seq<Workers>, events: seq<Event>, workload: set<Call>)
    requires IsRun(states, events, workload)
    ensures WorkersInv(states[|events|]) && FromWorkload(states[|events|], workload)
  {
    if events != [] {
      var n := |events| - 1;
      assert IsRun(states[..n + 1], events[..n], workload) by {
        forall k | 0 <= k < n ensures Next(states[..n + 1][k], events[..n][k], states[..n + 1][k + 1]) {
          assert Next(states[k], events[k], states[k + 1]);
        }
      }
      RunKeepsInv(states[..n + 1], events[..n], workload);
      assert Next(states[n], events[n], states[n + 1]);
      StepKeepsInv(states[n], events[n], states[n + 1]);
    }
  }

  ghost predicate Deadlocks(states: seq<Workers>, events: seq<Event>, workload: set<Call>, cycle: seq<nat>) {
    IsRun(states, events, workload) && IsCycle(states[|events|], cycle)
  }

  ghost predicate HasClash(workload: set<Call>) {
    exists a, b :: a in workload && b in workload && WellFormed(a) && WellFormed(b) && Clash(a, b)
  }

  lemma {:induction false} NoClashNoDeadlock(states: seq<Workers>, events: seq<Event>, workload: set<Call>, cycle: seq<nat>)
    requires !HasClash(workload)
    ensures !Deadlocks(states, events, workload, cycle)
  {
    if IsRun(states, events, workload) {
      RunKeepsInv(states, events, workload);
      NoCycle(states[|events|], cycle);
    }
  }

  /** A post drawing on a reversal's counter: each takes its first lock, and both wait for ever. */
  lemma {:induction false} ClashDeadlocks(workload: set<Call>, a: Call, b: Call)
    returns (states: seq<Workers>, events: seq<Event>, cycle: seq<nat>)
    requires a in workload && b in workload && WellFormed(a) && WellFormed(b) && Clash(a, b)
    ensures Deadlocks(states, events, workload, cycle)
  {
    var s1: Workers := map[0 := Worker(a, 0)];
    var s2 := s1[1 := Worker(b, 0)];
    var s3 := s2[0 := Worker(a, 1)];
    var s4 := s3[1 := Worker(b, 1)];
    states := [map[], s1, s2, s3, s4];
    events := [Start(0, a), Start(1, b), Take(0), Take(1)];
    cycle := [0, 1];
    assert Wanted(a)[..1] == [a.serial] && Wanted(b)[..1] == [b.counter];
    assert Next(map[], events[0], s1) && Next(s1, events[1], s2);
    assert Next(s2, events[2], s3) by { assert Wanted(b)[..0] == []; }
    assert Next(s3, events[3], s4);
    assert Waits(s4, 0, 1) && Waits(s4, 1, 0);
  }

  /** A workload can deadlock on these locks if and only if it posts in a counter it also reverses in. */
  lemma {:induction false} DeadlockIff(workload: set<Call>)
    ensures (exists states, events, cycle :: Deadlocks(states, events, workload, cycle)) <==> HasClash(workload)
  {
    if HasClash(workload) {
      var a, b :| a in workload && b in workload && WellFormed(a) && WellFormed(b) && Clash(a, b);
      var states, events, cycle := ClashDeadlocks(workload, a, b);
    } else {
      forall states, events, cycle ensures !Deadlocks(states, events, workload, cycle) {
        NoClashNoDeadlock(states, events, workload, cycle);
      }
    }
  }
}
