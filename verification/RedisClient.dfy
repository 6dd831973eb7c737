/**
 The reader and the connection object in the form the client has them
 (src/common/redis/redis-cache.service.ts): offsets into one buffer, a list filled item by item, a queue
 shifted reply by reply.  Each is proved to do what `ReadReply` and `Step` say.
 */
module RedisClient {
  import opened Prelude
  import opened Resp
  import opened RespReader
  import opened RedisConnection

  // ---------------------------------------------------------------- the reader

  /** The line that starts at an offset, up to the first line end after it, and the offset after that. */
  method ReadLine(buffer: string, offset: nat) returns (r: Option<(string, nat)>)
    requires offset <= |buffer|
    ensures r == if LineEndFrom(buffer, offset) == |buffer| then None
                 else Some((buffer[offset..LineEndFrom(buffer, offset)], LineEndFrom(buffer, offset) + 2))
  {
    var end := offset;
    while end < |buffer| && !CrLfAt(buffer, end)
      invariant offset <= end <= |buffer| && LineEndFrom(buffer, end) == LineEndFrom(buffer, offset)
    {
      end := end + 1;
    }
    if end == |buffer| {
      return None;
    }
    return Some((buffer[offset..end], end + 2));
  }

  method ParseReply(buffer: string, offset: nat, open: set<nat>) returns (r: Parsed)
    ensures r == ReadReply(buffer, offset, open)
    decreases |Unread(buffer, open)|, 1
  {
    if offset >= |buffer| {
      return Incomplete;
    }
    var tag := buffer[offset];
    if !IsTag(tag) {
      return Malformed;
    }
    var head := ReadLine(buffer, offset + 1);
    if head.None? {
      return Incomplete;
    }
    r := ParseTaggedAt(buffer, offset, head.value.0, head.value.1, open);
  }

  /** The reply whose first line is read already. */
  method ParseTaggedAt(buffer: string, offset: nat, line: string, next: nat, open: set<nat>) returns (r: Parsed)
    requires offset < |buffer| && IsTag(buffer[offset]) && 2 <= next <= |buffer|
    ensures r == ReadTagged(buffer, offset, line, next, open)
    decreases |Unread(buffer, open)|, 0
  {
    var tag := buffer[offset];
    if tag == '*' {
      if offset in open {
        return Malformed;
      }
      assert IsOffset(buffer, offset) && Unread(buffer, open + {offset}) == Unread(buffer, open) - {offset};
      r := ParseArrayAt(buffer, ParseInt(line), next, open + {offset});
    } else if tag == '$' {
      r := ParseBulkString(buffer, ParseInt(line), next);
    } else if tag == ':' {
      r := Done(Number(ParseInt(line)), false, next);
    } else {
      r := Done(Text(line), tag == '-', next);
    }
  }

  method ParseBulkString(buffer: string, length: Option<int>, next: nat) returns (r: Parsed)
    requires 2 <= next <= |buffer|
    ensures r == ReadBulk(buffer, length, next)
  {
    if length == Some(-1) {
      return Done(Null, false, next);
    }
    if length.None? {
      return Malformed;
    }
    var end := next + length.value;
    if |buffer| < end + 2 {
      return Incomplete;
    }
    if end < 0 || buffer[end] != '\r' || buffer[end + 1] != '\n' {
      return Malformed;
    }
    return Done(Text(if next <= end then buffer[next..end] else ""), false, end + 2);
  }

  method ParseArrayAt(buffer: string, count: Option<int>, start: nat, open: set<nat>) returns (r: Parsed)
    requires 2 <= start <= |buffer|
    ensures r == ReadArray(buffer, count, start, open)
    decreases |Unread(buffer, open)|, 2
  {
    if count == Some(-1) {
      return Done(Null, false, start);
    }
    if count.None? {
      return Done(List([]), false, start);
    }
    var values: seq<Value> := [];
    var next, index := start, 0;
    ghost var whole := ReadArray(buffer, count, start, open);
    LoopStart(buffer, count.value, start, open);
    while index < count.value
      invariant 0 <= index <= Max(0, count.value) && 2 <= next <= |buffer|
      invariant whole == ItemsLeft(values, buffer, count.value - index, next, open)
    {
      var item := ParseReply(buffer, next, open);
      ItemTurn(values, buffer, count.value - index, next, open, item);
      if !item.Done? || item.isError {
        return item;
      }
      values := values + [item.value];
      next := item.used;
      index := index + 1;
    }
    return Done(List(values), false, next);
  }

  /** The result of an array of which some items are read and `n` are left. */
  ghost function ItemsLeft(values: seq<Value>, buffer: string, n: int, next: nat, open: set<nat>): Parsed
    requires 2 <= next <= |buffer|
  {
    if n <= 0 then Done(List(values), false, next) else With(values, ReadItems(buffer, n, next, open))
  }

  lemma {:induction false} WithNone(p: Parsed)
    ensures With([], p) == p
  {
    if p.Done? && p.value.List? {
      assert [] + p.value.items == p.value.items;
    }
  }

  lemma {:induction false} WithWith(values: seq<Value>, value: Value, rest: Parsed)
    ensures With(values, With([value], rest)) == With(values + [value], rest)
  {
    if rest.Done? && !rest.isError && rest.value.List? {
      assert values + ([value] + rest.value.items) == values + [value] + rest.value.items;
    }
  }

  lemma {:induction false} LoopStart(buffer: string, count: int, start: nat, open: set<nat>)
    requires 2 <= start <= |buffer| && count != -1
    ensures ReadArray(buffer, Some(count), start, open) == ItemsLeft([], buffer, count, start, open)
  {
    if count > 0 {
      WithNone(ReadItems(buffer, count, start, open));
    }
  }

  lemma {:induction false} NoneLeft(values: seq<Value>, buffer: string, next: nat, open: set<nat>)
    requires 2 <= next <= |buffer|
    ensures With(values, ReadItems(buffer, 0, next, open)) == Done(List(values), false, next)
  {
    assert values + [] == values;
  }

  /** One turn of the loop over an array's items. */
  lemma {:induction false} ItemTurn(
    values: seq<Value>, buffer: string, n: nat, next: nat, open: set<nat>, item: Parsed)
    requires 2 <= next <= |buffer| && n > 0 && item == ReadReply(buffer, next, open)
    ensures ItemsLeft(values, buffer, n, next, open)
         == if !item.Done? || item.isError then item
            else ItemsLeft(values + [item.value], buffer, n - 1, item.used, open)
  {
    if item.Done? && !item.isError {
      var rest := ReadItems(buffer, n - 1, item.used, open);
      ReadStep(buffer, n, next, open, item, rest);
      WithWith(values, item.value, rest);
      NoneLeft(values + [item.value], buffer, item.used, open);
    } else {
      ReadStep(buffer, n, next, open, item, item);
    }
  }

  // ---------------------------------------------------------------- the connection

  class Client {
    var open: bool
    var written: string
    var readBuffer: string
    var pendingResponses: seq<Command>
    var settled: seq<Settled>

    ghost function State(): Conn
      reads this
    {
      Conn(open, written, readBuffer, pendingResponses, settled)
    }

    constructor ()
      ensures State() == FRESH
    {
      open, written, readBuffer, pendingResponses, settled := true, "", "", [], [];
    }

    method SendCommand(command: Command) returns (r: Result<(), string>)
      modifies this
      ensures State() == Step(old(State()), Send(command))
      ensures r.Ok? <==> old(open)
    {
      if !open {
        return Err("Redis cache connection is not ready");
      }
      pendingResponses := pendingResponses + [command];
      written := written + EncodeCommand(command.parts);
      return Ok(());
    }

    /** Settles the command that has waited longest, if one is waiting. */
    method Deliver(answer: Answer)
      modifies this`pendingResponses, this`settled
      ensures State() == AnswerOne(old(State()), answer)
    {
      if pendingResponses == [] {
        return;
      }
      var pending := pendingResponses[0];
      pendingResponses := pendingResponses[1..];
      settled := settled + [Settled(pending, if answer.isError then Refused(answer.value) else Resolved(answer.value))];
    }

    /** Malformed bytes are thrown back at the caller; the replies before them are settled first. */
    method HandleData(chunk: string) returns (r: Result<(), string>)
      modifies this
      ensures State() == Step(old(State()), Data(chunk))
      ensures r.Err? <==> Read(readBuffer).Malformed?
    {
      readBuffer := readBuffer + chunk;
      var parsed := Incomplete;
      ghost var goal := DrainedInto(State());
      while |readBuffer| > 0
        invariant DrainedInto(State()) == goal
        invariant parsed.Incomplete?
        decreases |readBuffer|
      {
        parsed := ParseReply(readBuffer, 0, {});
        if !parsed.Done? {
          break;
        }
        readBuffer := readBuffer[parsed.used..];
        Deliver(Answer(parsed.value, parsed.isError));
        parsed := Incomplete;
      }
      return if parsed.Malformed? then Err("malformed reply") else Ok(());
    }

    method RejectPending(error: string)
      modifies this`pendingResponses, this`settled
      ensures pendingResponses == []
      ensures settled == old(settled) + Broken(old(pendingResponses), error)
    {
      while pendingResponses != []
        invariant settled + Broken(pendingResponses, error) == old(settled) + Broken(old(pendingResponses), error)
        decreases |pendingResponses|
      {
        var pending := pendingResponses[0];
        pendingResponses := pendingResponses[1..];
        settled := settled + [Settled(pending, Lost(error))];
      }
    }

    method HandleSocketTermination(error: Option<string>)
      modifies this
      ensures State() == Step(old(State()), Terminate(if error.Some? then error.value else "Redis cache connection closed"))
    {
      open := false;
      readBuffer := "";
      RejectPending(if error.Some? then error.value else "Redis cache connection closed");
    }
  }
}
