/**
 Commands and replies on one Redis connection (src/common/redis/redis-cache.service.ts): commands wait in
 a queue, replies are read off the arriving bytes, and the two are matched first in, first out.
 */
module RedisConnection {
  import opened Prelude
  import opened Resp
  import opened RespReader

  datatype Command = Command(id: nat, parts: seq<string>)

  datatype Outcome = Resolved(value: Value) | Refused(reply: Value) | Lost(error: string)

  datatype Settled = Settled(command: Command, outcome: Outcome)

  /** `written` is every byte put on the socket; `settled` is every promise kept or broken, in order. */
  datatype Conn = Conn(open: bool, written: string, buffer: string, pending: seq<Command>, settled: seq<Settled>)

  const FRESH := Conn(true, "", "", [], [])

  datatype Event = Send(command: Command) | Data(chunk: string) | Terminate(error: string)

  function OutcomeOf(a: Answer): Outcome { if a.isError then Refused(a.value) else Resolved(a.value) }

  /** The first commands with the first replies. */
  function Pairs(commands: seq<Command>, answers: seq<Answer>): (r: seq<Settled>)
    ensures |r| == Min(|commands|, |answers|)
  {
    if commands == [] || answers == [] then []
    else [Settled(commands[0], OutcomeOf(answers[0]))] + Pairs(commands[1..], answers[1..])
  }

  function Broken(commands: seq<Command>, error: string): (r: seq<Settled>)
    ensures |r| == |commands|
  {
    if commands == [] then [] else [Settled(commands[0], Lost(error))] + Broken(commands[1..], error)
  }

  /** All the replies at once: those nobody waits for are dropped. */
  function Answered(c: Conn, answers: seq<Answer>): Conn {
    c.(pending := c.pending[Min(|c.pending|, |answers|)..], settled := c.settled + Pairs(c.pending, answers))
  }

  /** The command that has waited longest gets the answer; with none waiting the answer is dropped. */
  function AnswerOne(c: Conn, a: Answer): Conn {
    if c.pending == [] then c
    else c.(pending := c.pending[1..], settled := c.settled + [Settled(c.pending[0], OutcomeOf(a))])
  }

  /** Dealing with the complete replies in the buffer one by one. */
  function AfterReply(c: Conn, p: Parsed): Conn
    requires p.Done? && p.used <= |c.buffer|
  {
    AnswerOne(c.(buffer := c.buffer[p.used..]), Answer(p.value, p.isError))
  }

  function DrainedInto(c: Conn): Conn
    decreases |c.buffer|
  {
    var p := Read(c.buffer);
    if p.Done? then DrainedInto(AfterReply(c, p)) else c
  }

  /** A command on a closed connection is refused outright. */
  function Step(c: Conn, e: Event): Conn {
    match e
    case Send(command) =>
      if c.open then c.(written := c.written + EncodeCommand(command.parts), pending := c.pending + [command]) else c
    case Data(chunk) =>
      DrainedInto(c.(buffer := c.buffer + chunk))
    case Terminate(error) => Conn(false, c.written, "", [], c.settled + Broken(c.pending, error))
  }

  function Run(events: seq<Event>): Conn {
    if events == [] then FRESH else Step(Run(events[..|events| - 1]), events[|events| - 1])
  }

  // ---------------------------------------------------------------- what a run amounts to

  ghost predicate Ended(events: seq<Event>) {
    events != [] && (events[|events| - 1].Terminate? || Ended(events[..|events| - 1]))
  }

  /** The commands accepted, in order. */
  ghost function Sent(events: seq<Event>): seq<Command> {
    if events == [] then []
    else
      var n := |events| - 1;
      var before := Sent(events[..n]);
      if events[n].Send? && !Ended(events[..n]) then before + [events[n].command] else before
  }

  /** The chunks received, in order. */
  ghost function Chunks(events: seq<Event>): seq<string> {
    if events == [] then []
    else
      var n := |events| - 1;
      var before := Chunks(events[..n]);
      if events[n].Data? then before + [events[n].chunk] else before
  }

  /** Every reply the bytes received so far hold. */
  ghost function Replies(events: seq<Event>): seq<Answer> { Drain(Concat(Chunks(events))).answers }

  /** At no time more replies than commands. */
  ghost predicate InStep(events: seq<Event>) {
    events != [] ==> InStep(events[..|events| - 1]) && |Replies(events)| <= |Sent(events)|
  }

  ghost function Commands(settled: seq<Settled>): (r: seq<Command>)
    ensures |r| == |settled|
  {
    seq(|settled|, i requires 0 <= i < |settled| => settled[i].command)
  }

  // ---------------------------------------------------------------- one by one is all at once

  lemma {:induction false} AnsweredFirst(c: Conn, a: Answer, more: seq<Answer>)
    ensures Answered(AnswerOne(c, a), more) == Answered(c, [a] + more)
  {
    if c.pending != [] {
      assert ([a] + more)[1..] == more;
      assert c.settled + [Settled(c.pending[0], OutcomeOf(a))] + Pairs(c.pending[1..], more)
          == c.settled + ([Settled(c.pending[0], OutcomeOf(a))] + Pairs(c.pending[1..], more));
    }
  }

  lemma {:induction false} DrainedIntoIs(c: Conn)
    ensures var d := Drain(c.buffer); DrainedInto(c) == Answered(c, d.answers).(buffer := d.rest)
    decreases |c.buffer|
  {
    var p := Read(c.buffer);
    if p.Done? {
      DrainedIntoIs(AfterReply(c, p));
      AnsweredFirst(c.(buffer := c.buffer[p.used..]), Answer(p.value, p.isError), Drain(c.buffer[p.used..]).answers);
    } else {
    }
  }

  lemma {:induction false} DataStep(c: Conn, chunk: string)
    ensures var d := Drain(c.buffer + chunk); Step(c, Data(chunk)) == Answered(c, d.answers).(buffer := d.rest)
  {
    DrainedIntoIs(c.(buffer := c.buffer + chunk));
  }

  // ---------------------------------------------------------------- no command lost, none settled twice

  lemma {:induction false} PairsAt(commands: seq<Command>, answers: seq<Answer>, i: nat)
    requires i < Min(|commands|, |answers|)
    ensures Pairs(commands, answers)[i] == Settled(commands[i], OutcomeOf(answers[i]))
  {
    if i > 0 {
      PairsAt(commands[1..], answers[1..], i - 1);
    }
  }

  lemma {:induction false} BrokenAt(commands: seq<Command>, error: string, i: nat)
    requires i < |commands|
    ensures Broken(commands, error)[i] == Settled(commands[i], Lost(error))
  {
    if i > 0 {
      BrokenAt(commands[1..], error, i - 1);
    }
  }

  lemma {:induction false} OpenUntilEnded(events: seq<Event>)
    ensures Run(events).open <==> !Ended(events)
    ensures Ended(events) ==> Run(events).pending == []
  {
    if events != [] {
      var n := |events| - 1;
      OpenUntilEnded(events[..n]);
      if events[n].Data? {
        DataStep(Run(events[..n]), events[n].chunk);
      }
    }
  }

  ghost predicate Accounts(c: Conn, sent: seq<Command>) { Commands(c.settled) + c.pending == sent }

  lemma {:induction false} PairsCommands(commands: seq<Command>, answers: seq<Answer>)
    ensures Commands(Pairs(commands, answers)) == commands[..Min(|commands|, |answers|)]
  {
    forall i | 0 <= i < Min(|commands|, |answers|) ensures Pairs(commands, answers)[i].command == commands[i] {
      PairsAt(commands, answers, i);
    }
  }

  lemma {:induction false} DataAccounts(c: Conn, answers: seq<Answer>, sent: seq<Command>)
    requires Accounts(c, sent)
    ensures Accounts(Answered(c, answers), sent)
  {
    var more := Pairs(c.pending, answers);
    PairsCommands(c.pending, answers);
  }

  lemma {:induction false} TerminateAccounts(c: Conn, error: string, sent: seq<Command>)
    requires Accounts(c, sent)
    ensures Accounts(Step(c, Terminate(error)), sent)
  {
    var c' := Step(c, Terminate(error));
    forall i | 0 <= i < |c.pending| ensures c'.settled[|c.settled| + i].command == c.pending[i] {
      BrokenAt(c.pending, error, i);
    }
    assert Commands(c'.settled) == Commands(c.settled) + c.pending;
  }

  /**
   In every run the commands settled, followed by those still waiting, are exactly the commands sent, in
   order; and once the connection has ended none is left waiting.
   */
  lemma {:induction false} EverySentSettledOnce(events: seq<Event>)
    ensures Commands(Run(events).settled) + Run(events).pending == Sent(events)
    ensures Ended(events) ==> Run(events).pending == []
  {
    OpenUntilEnded(events);
    if events != [] {
      var n := |events| - 1;
      var c, sent := Run(events[..n]), Sent(events[..n]);
      EverySentSettledOnce(events[..n]);
      OpenUntilEnded(events[..n]);
      match events[n] {
        case Send(command) =>
          assert Commands(c.settled) + (c.pending + [command]) == (Commands(c.settled) + c.pending) + [command];
        case Data(chunk) =>
          DataStep(c, chunk);
          DataAccounts(c, Drain(c.buffer + chunk).answers, sent);
        case Terminate(error) => TerminateAccounts(c, error, sent);
      }
    }
  }

  // ---------------------------------------------------------------- the connection ends

  lemma {:induction false} StepKeepsSettled(c: Conn, e: Event)
    ensures c.settled <= Step(c, e).settled
  {
    if e.Data? { DataStep(c, e.chunk); }
  }

  /** A promise once kept or broken stays so, whatever happens later. */
  lemma {:induction false} SettledStays(events: seq<Event>, n: nat)
    requires n <= |events|
    ensures Run(events[..n]).settled <= Run(events).settled
    decreases |events| - n
  {
    if n == |events| {
      assert events[..n] == events;
    } else {
      SettledStays(events, n + 1);
      assert events[..n + 1][..n] == events[..n];
      StepKeepsSettled(Run(events[..n]), events[n]);
    }
  }

  /** A reply that arrives settles the command that has waited longest: broken by an error, kept by anything else. */
  lemma {:induction false} ReplySettlesWaiting(events: seq<Event>, n: nat, i: nat)
    requires n < |events| && events[n].Data?
    requires i < |Run(events[..n]).pending| && i < |Drain(Run(events[..n]).buffer + events[n].chunk).answers|
    ensures var c, at := Run(events[..n]), |Run(events[..n]).settled| + i;
      var answer := Drain(c.buffer + events[n].chunk).answers[i];
      && at < |Run(events).settled|
      && Run(events).settled[at]
           == Settled(c.pending[i], if answer.isError then Refused(answer.value) else Resolved(answer.value))
  {
    var c := Run(events[..n]);
    assert events[..n + 1][..n] == events[..n];
    DataStep(c, events[n].chunk);
    PairsAt(c.pending, Drain(c.buffer + events[n].chunk).answers, i);
    SettledStays(events, n + 1);
  }

  /**
   When the connection ends at event n, each command waiting is rejected with the error it ended with, in the
   order they were sent, and for good; and those are the only promises that event breaks or keeps.
   */
  lemma {:induction false} EndRejectsWaiting(events: seq<Event>, n: nat, i: nat)
    requires n < |events| && events[n].Terminate? && i < |Run(events[..n]).pending|
    ensures var c, at := Run(events[..n]), |Run(events[..n]).settled| + i;
      && at < |Run(events).settled|
      && Run(events).settled[at].command == c.pending[i]
      && Run(events).settled[at].outcome.Lost? && Run(events).settled[at].outcome.error == events[n].error
    ensures |Run(events[..n + 1]).settled| == |Run(events[..n]).settled| + |Run(events[..n]).pending|
    ensures Run(events[..n]).settled <= Run(events).settled
  {
    var c := Run(events[..n]);
    assert events[..n + 1][..n] == events[..n];
    BrokenAt(c.pending, events[n].error, i);
    SettledStays(events, n);
    SettledStays(events, n + 1);
  }

  // ---------------------------------------------------------------- the k-th command gets the k-th reply

  lemma {:induction false} PairsExtend(commands: seq<Command>, more: seq<Command>, a: seq<Answer>, b: seq<Answer>)
    requires |commands| == |a|
    ensures Pairs(commands + more, a + b) == Pairs(commands, a) + Pairs(more, b)
  {
    if commands == [] {
      assert commands + more == more && a + b == b;
    } else {
      PairsExtend(commands[1..], more, a[1..], b);
      assert (commands + more)[1..] == commands[1..] + more && (a + b)[1..] == a[1..] + b;
    }
  }

  /** The buffer is what is left of all the bytes. */
  lemma {:induction false} BufferIsRest(events: seq<Event>)
    requires !Ended(events)
    ensures Run(events).buffer == Drain(Concat(Chunks(events))).rest
  {
    if events != [] {
      var n := |events| - 1;
      BufferIsRest(events[..n]);
      if events[n].Data? {
        DataStep(Run(events[..n]), events[n].chunk);
        ReadMore(events);
      }
    }
  }

  lemma {:induction false} ReadMore(events: seq<Event>)
    requires events != [] && events[|events| - 1].Data?
    ensures var n := |events| - 1; var d := Drain(Concat(Chunks(events[..n])));
      var more := Drain(d.rest + events[n].chunk);
      Drain(Concat(Chunks(events))) == Drained(d.answers + more.answers, more.rest)
  {
    var n := |events| - 1;
    var before, chunk := Chunks(events[..n]), events[n].chunk;
    assert (before + [chunk])[..|before|] == before;
    DrainConcat(Concat(before), chunk);
  }

  /** Fewer commands are settled than replies came, unless replies never outran commands. */
  ghost predicate Matched(c: Conn, sent: seq<Command>, replies: seq<Answer>, inStep: bool) {
    && |c.settled| <= |replies|
    && (inStep <==> |c.settled| == |replies|)
    && (inStep ==> c.settled == Pairs(sent, replies))
  }

  lemma {:induction false} DataMatches(
    c: Conn, answers: seq<Answer>, sent: seq<Command>, replies: seq<Answer>, inStep: bool, inStep': bool)
    requires Accounts(c, sent) && Matched(c, sent, replies, inStep)
    requires inStep' <==> inStep && |replies + answers| <= |sent|
    ensures Matched(Answered(c, answers), sent, replies + answers, inStep')
  {
    if inStep {
      var done := sent[..|replies|];
      assert done == Commands(c.settled) && sent[|replies|..] == c.pending && sent == done + c.pending;
      PairsExtend(done, c.pending, replies, answers);
      PairsExtend(done, c.pending, replies, []);
      assert replies + [] == replies;
      assert Pairs(done, replies) + [] == Pairs(done, replies);
      assert Pairs(c.pending, []) == [];
    }
  }

  lemma {:induction false} SendMatches(c: Conn, command: Command, sent: seq<Command>, replies: seq<Answer>)
    requires Accounts(c, sent) && |c.settled| == |replies| && c.settled == Pairs(sent, replies)
    ensures Pairs(sent + [command], replies) == c.settled
  {
    var done := sent[..|replies|];
    assert sent == done + c.pending && sent + [command] == done + (c.pending + [command]) && replies == replies + [];
    PairsExtend(done, c.pending, replies, []);
    PairsExtend(done, c.pending + [command], replies, []);
  }

  /**
   While the connection lasts, the k-th command is settled by the k-th reply and every reply settles a
   command, if and only if replies never outran commands.
   */
  lemma {:induction false} PairedInOrder(events: seq<Event>)
    requires !Ended(events)
    ensures Matched(Run(events), Sent(events), Replies(events), InStep(events))
  {
    if events == [] {
      assert Drain("") == Drained([], "");
    } else {
      var n := |events| - 1;
      var c, sent, replies := Run(events[..n]), Sent(events[..n]), Replies(events[..n]);
      PairedInOrder(events[..n]);
      EverySentSettledOnce(events[..n]);
      BufferIsRest(events[..n]);
      match events[n] {
        case Send(command) =>
          OpenUntilEnded(events[..n]);
          assert Accounts(c, sent);
          if InStep(events[..n]) {
            SendMatches(c, command, sent, replies);
          }
        case Data(chunk) =>
          DataStep(c, chunk);
          ReadMore(events);
          var answers := Drain(c.buffer + chunk).answers;
          DataMatches(c, answers, sent, replies, InStep(events[..n]), InStep(events));
      }
    }
  }

  // ---------------------------------------------------------------- against a server's replies

  /** However much of a clean reply stream has come, its first replies have been delivered, unchanged. */
  lemma {:induction false} PrefixOfStream(bytes: string, more: string, rs: seq<Reply>)
    requires bytes + more == EncodeAll(rs)
    requires forall i | 0 <= i < |rs| :: Resp.WellFormed(rs[i]) && Clean(rs[i])
    ensures var got := Drain(bytes).answers; |got| <= |rs| && got == Answers(rs)[..|got|]
  {
    CleanStreamDrains(rs);
    DrainConcat(bytes, more);
  }

  lemma {:induction false} AnswerAt(rs: seq<Reply>, k: nat)
    requires k < |rs|
    ensures Answers(rs)[k] == Answer(Meaning(rs[k]), rs[k].Error?)
  {
    if k > 0 {
      AnswerAt(rs[1..], k - 1);
    }
  }

  lemma {:induction false} KthCommandGetsKthReply(events: seq<Event>, rs: seq<Reply>, more: string, k: nat)
    requires !Ended(events) && InStep(events) && k < |Run(events).settled|
    requires forall i | 0 <= i < |rs| :: Resp.WellFormed(rs[i]) && Clean(rs[i])
    requires Concat(Chunks(events)) + more == EncodeAll(rs)
    ensures k < |rs| && k < |Sent(events)|
    ensures Run(events).settled[k]
         == Settled(Sent(events)[k], if rs[k].Error? then Refused(Meaning(rs[k])) else Resolved(Meaning(rs[k])))
  {
    PairedInOrder(events);
    PrefixOfStream(Concat(Chunks(events)), more, rs);
    PairsAt(Sent(events), Replies(events), k);
    AnswerAt(rs, k);
  }

  // ---------------------------------------------------------------- what the server reads

  ghost function AsReplies(commands: seq<Command>): (rs: seq<Reply>)
    ensures |rs| == |commands| && forall i | 0 <= i < |rs| :: rs[i] == Array(Bulks(commands[i].parts))
  {
    seq(|commands|, i requires 0 <= i < |commands| => Array(Bulks(commands[i].parts)))
  }

  lemma {:induction false} EncodeAllAppend(rs: seq<Reply>, r: Reply)
    ensures EncodeAll(rs + [r]) == EncodeAll(rs) + Encode(r)
  {
    if rs == [] {
      assert rs + [r] == [r];
    } else {
      EncodeAllAppend(rs[1..], r);
      assert (rs + [r])[1..] == rs[1..] + [r];
      var a, b, c := Encode(rs[0]), EncodeAll(rs[1..]), Encode(r);
      assert a + (b + c) == a + b + c;
    }
  }

  /** The socket carries exactly the commands sent, in order, each readable as its own parts. */
  lemma {:induction false} ServerReadsCommands(events: seq<Event>)
    ensures Run(events).written == EncodeAll(AsReplies(Sent(events)))
    ensures Drain(Run(events).written) == Drained(Answers(AsReplies(Sent(events))), "")
  {
    WrittenIsSent(events);
    var rs := AsReplies(Sent(events));
    forall i | 0 <= i < |rs| ensures Resp.WellFormed(rs[i]) && Clean(rs[i]) {
      assert rs[i] == Array(Bulks(Sent(events)[i].parts));
    }
    CleanStreamDrains(rs);
  }

  lemma {:induction false} WrittenIsSent(events: seq<Event>)
    ensures Run(events).written == EncodeAll(AsReplies(Sent(events)))
  {
    if events != [] {
      var n := |events| - 1;
      WrittenIsSent(events[..n]);
      OpenUntilEnded(events[..n]);
      if events[n].Data? {
        DataStep(Run(events[..n]), events[n].chunk);
      }
      if events[n].Send? {
        var command := events[n].command;
        PartsAreBulks(command.parts);
        EncodeAllAppend(AsReplies(Sent(events[..n])), Array(Bulks(command.parts)));
        assert AsReplies(Sent(events[..n]) + [command]) == AsReplies(Sent(events[..n])) + [Array(Bulks(command.parts))];
      }
    }
  }
}
