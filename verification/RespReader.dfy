/**
 The reply reader of the hand-written Redis client (src/common/redis/redis-cache.service.ts), exactly: it
 works at offsets of one buffer, and a negative bulk length sends it back to bytes it has already passed.

 `open` holds the offsets of the arrays being read, that is, the call stack.  Reading an array again while
 it is being read would go on for ever; the runtime's stack overflows and throws, which is `Malformed` here.
 The `used` of a result is the offset after the reply.
 */
module RespReader {
  import opened Prelude
  import opened Decimal
  import opened Resp

  // ---------------------------------------------------------------- the reader

  predicate IsOffset(buffer: string, i: nat) { i < |buffer| }

  /** The offsets at which no array is being read. */
  function Unread(buffer: string, open: set<nat>): set<nat> {
    (set i: nat | i < |buffer| && IsOffset(buffer, i)) - open
  }

  function ReadReply(buffer: string, offset: nat, open: set<nat>): (r: Parsed)
    ensures r.Done? ==> 2 <= r.used <= |buffer|
    decreases |Unread(buffer, open)|, 0, 1
  {
    if offset >= |buffer| then Incomplete
    else if !IsTag(buffer[offset]) then Malformed
    else
      var end := LineEndFrom(buffer, offset + 1);
      if end == |buffer| then Incomplete else ReadTagged(buffer, offset, buffer[offset + 1..end], end + 2, open)
  }

  /** A reply by its tag and the rest of its first line; `next` is the offset after the line. */
  function ReadTagged(buffer: string, offset: nat, line: string, next: nat, open: set<nat>): (r: Parsed)
    requires offset < |buffer| && IsTag(buffer[offset]) && 2 <= next <= |buffer|
    ensures r.Done? ==> 2 <= r.used <= |buffer|
    decreases |Unread(buffer, open)|, 0, 0
  {
    match buffer[offset]
    case '+' => Done(Text(line), false, next)
    case '-' => Done(Text(line), true, next)
    case ':' => Done(Number(ParseInt(line)), false, next)
    case '$' => ReadBulk(buffer, ParseInt(line), next)
    case _ =>
      if offset in open then Malformed
      else
        assert IsOffset(buffer, offset) && Unread(buffer, open + {offset}) == Unread(buffer, open) - {offset};
        ReadArray(buffer, ParseInt(line), next, open + {offset})
  }

  /** Below zero the terminator is looked for before `next`, and what follows it is read again. */
  function ReadBulk(buffer: string, length: Option<int>, next: nat): (r: Parsed)
    requires 2 <= next <= |buffer|
    ensures r.Done? ==> 2 <= r.used <= |buffer|
  {
    if length.None? then Malformed
    else if length.value == -1 then Done(Null, false, next)
    else if |buffer| < next + length.value + 2 then Incomplete
    else if !CrLfAt(buffer, next + length.value) then Malformed
    else Done(Text(if length.value < 0 then "" else buffer[next..next + length.value]), false, next + length.value + 2)
  }

  function ReadArray(buffer: string, count: Option<int>, next: nat, open: set<nat>): (r: Parsed)
    requires 2 <= next <= |buffer|
    ensures r.Done? ==> 2 <= r.used <= |buffer|
    decreases |Unread(buffer, open)|, if count.Some? && count.value > 0 then count.value else 0, 1
  {
    if count == Some(-1) then Done(Null, false, next)
    else if count.Some? && count.value > 0 then ReadItems(buffer, count.value, next, open)
    else Done(List([]), false, next)
  }

  /** The next n items.  An error among them is the result of the whole array, at the point it is read. */
  function ReadItems(buffer: string, n: nat, next: nat, open: set<nat>): (r: Parsed)
    requires 2 <= next <= |buffer|
    ensures r.Done? ==> 2 <= r.used <= |buffer|
    ensures r.Done? && !r.isError ==> r.value.List?
    decreases |Unread(buffer, open)|, n, 0
  {
    if n == 0 then Done(List([]), false, next)
    else
      var item := ReadReply(buffer, next, open);
      if !item.Done? || item.isError then item
      else With([item.value], ReadItems(buffer, n - 1, item.used, open))
  }

  /** The result of a list whose first items were already read. */
  function With(values: seq<Value>, rest: Parsed): Parsed {
    if rest.Done? && !rest.isError && rest.value.List? then rest.(value := List(values + rest.value.items)) else rest
  }

  function Read(s: string): (r: Parsed)
    ensures r.Done? ==> 2 <= r.used <= |s|
  {
    ReadReply(s, 0, {})
  }

  // ---------------------------------------------------------------- trailing bytes

  /** What is read is not changed by bytes that arrive later. */
  ghost predicate Stable(before: Parsed, after: Parsed) { before.Incomplete? || after == before }

  lemma {:induction false} LineEndStable(s: string, t: string, from: nat)
    requires from <= |s| && LineEndFrom(s, from) < |s|
    ensures LineEndFrom(s + t, from) == LineEndFrom(s, from)
  {
    var i, j := LineEndFrom(s, from), LineEndFrom(s + t, from);
    LineEndFirst(s, from);
    LineEndFirst(s + t, from);
    assert CrLfAt(s + t, i);
    assert j < i ==> CrLfAt(s, j);
  }

  lemma {:induction false} ReplyStable(buffer: string, t: string, offset: nat, open: set<nat>)
    ensures Stable(ReadReply(buffer, offset, open), ReadReply(buffer + t, offset, open))
    decreases |Unread(buffer, open)|, 0, 1
  {
    if offset < |buffer| && IsTag(buffer[offset]) && LineEndFrom(buffer, offset + 1) < |buffer| {
      var end := LineEndFrom(buffer, offset + 1);
      LineEndStable(buffer, t, offset + 1);
      assert (buffer + t)[offset + 1..end] == buffer[offset + 1..end];
      TaggedStable(buffer, t, offset, buffer[offset + 1..end], end + 2, open);
    }
  }

  lemma {:induction false} TaggedStable(buffer: string, t: string, offset: nat, line: string, next: nat, open: set<nat>)
    requires offset < |buffer| && IsTag(buffer[offset]) && 2 <= next <= |buffer|
    ensures Stable(ReadTagged(buffer, offset, line, next, open), ReadTagged(buffer + t, offset, line, next, open))
    decreases |Unread(buffer, open)|, 0, 0
  {
    var n := ParseInt(line);
    if buffer[offset] == '$' {
      BulkStable(buffer, t, n, next);
    } else if buffer[offset] == '*' && offset !in open && n.Some? && n.value > 0 {
      assert IsOffset(buffer, offset) && Unread(buffer, open + {offset}) == Unread(buffer, open) - {offset};
      ItemsStable(buffer, t, n.value, next, open + {offset});
    }
  }

  lemma {:induction false} BulkStable(buffer: string, t: string, length: Option<int>, next: nat)
    requires 2 <= next <= |buffer|
    ensures Stable(ReadBulk(buffer, length, next), ReadBulk(buffer + t, length, next))
  {
    if length.Some? && next + length.value + 2 <= |buffer| {
      assert CrLfAt(buffer + t, next + length.value) == CrLfAt(buffer, next + length.value);
      if length.value >= 0 {
        assert (buffer + t)[next..next + length.value] == buffer[next..next + length.value];
      }
    }
  }

  lemma {:induction false} ItemsStable(buffer: string, t: string, n: nat, next: nat, open: set<nat>)
    requires 2 <= next <= |buffer|
    ensures Stable(ReadItems(buffer, n, next, open), ReadItems(buffer + t, n, next, open))
    decreases |Unread(buffer, open)|, n, 0
  {
    if n > 0 {
      ReplyStable(buffer, t, next, open);
      var item := ReadReply(buffer, next, open);
      if item.Done? && !item.isError {
        ItemsStable(buffer, t, n - 1, item.used, open);
      }
    }
  }

  /** For any bytes at all, trailing bytes never change a result that is not incomplete. */
  lemma {:induction false} ReadStable(s: string, t: string)
    ensures Stable(Read(s), Read(s + t))
  {
    ReplyStable(s, t, 0, {});
  }

  // ---------------------------------------------------------------- agreement with the protocol

  ghost predicate Behind(open: set<nat>, offset: nat) { forall o | o in open :: o < offset }

  lemma {:induction false} LineEndAt(buffer: string, offset: nat)
    requires offset <= |buffer|
    ensures LineEndFrom(buffer, offset) == offset + LineEnd(buffer[offset..])
  {
    var i, j := LineEndFrom(buffer, offset), LineEnd(buffer[offset..]);
    LineEndFirst(buffer, offset);
    LineEndFirst(buffer[offset..], 0);
    assert i < |buffer| ==> CrLfAt(buffer[offset..], i - offset);
    assert j < |buffer[offset..]| ==> CrLfAt(buffer, offset + j);
  }

  /** How the forward reader goes on after the first line. */
  lemma {:induction false} HeadAt(buffer: string, offset: nat, end: nat)
    requires offset < |buffer| && IsTag(buffer[offset]) && end == LineEndFrom(buffer, offset + 1)
    ensures Parse(buffer[offset..])
         == if end == |buffer| then Incomplete
            else Skip(end + 2 - offset, ParseTagged(buffer[offset], buffer[offset + 1..end], buffer[end + 2..]))
  {
    var s := buffer[offset..];
    LineEndAt(buffer, offset + 1);
    assert s[1..] == buffer[offset + 1..];
    if end < |buffer| {
      assert s[1..end - offset] == buffer[offset + 1..end];
      assert s[end + 2 - offset..] == buffer[end + 2..];
    }
  }

  lemma {:induction false} SkipSkip(a: nat, b: nat, p: Parsed)
    ensures Skip(a, Skip(b, p)) == Skip(a + b, p)
  {
  }

  lemma {:induction false} ReplyAgrees(buffer: string, offset: nat, open: set<nat>)
    requires offset <= |buffer| && Behind(open, offset) && !Parse(buffer[offset..]).Malformed?
    ensures ReadReply(buffer, offset, open) == Skip(offset, Parse(buffer[offset..]))
    decreases |buffer| - offset, 0
  {
    if offset < |buffer| && IsTag(buffer[offset]) {
      var end := LineEndFrom(buffer, offset + 1);
      HeadAt(buffer, offset, end);
      if end < |buffer| {
        var line := buffer[offset + 1..end];
        SkipSkip(offset, end + 2 - offset, ParseTagged(buffer[offset], line, buffer[end + 2..]));
        TaggedAgrees(buffer, offset, line, end + 2, open);
      }
    }
  }

  lemma {:induction false} TaggedAgrees(buffer: string, offset: nat, line: string, next: nat, open: set<nat>)
    requires offset < next <= |buffer| && 2 <= next && IsTag(buffer[offset]) && Behind(open, offset)
    requires !ParseTagged(buffer[offset], line, buffer[next..]).Malformed?
    ensures ReadTagged(buffer, offset, line, next, open) == Skip(next, ParseTagged(buffer[offset], line, buffer[next..]))
    decreases |buffer| - offset - 1, 2
  {
    var n, s := ParseInt(line), buffer[next..];
    if buffer[offset] == '$' {
      BulkAgrees(buffer, n, next);
    } else if buffer[offset] == '*' && n.Some? && n.value > 0 {
      ItemsAgree(buffer, n.value, next, open + {offset});
    }
  }

  lemma {:induction false} BulkAgrees(buffer: string, length: Option<int>, next: nat)
    requires 2 <= next <= |buffer| && !ParseBulk(length, buffer[next..]).Malformed?
    ensures ReadBulk(buffer, length, next) == Skip(next, ParseBulk(length, buffer[next..]))
  {
    var s := buffer[next..];
    if length.Some? && length.value >= 0 && length.value + 2 <= |s| {
      assert CrLfAt(s, length.value) == CrLfAt(buffer, next + length.value);
      assert s[..length.value] == buffer[next..next + length.value];
    }
  }

  /** The result of n items from the first item's and the others'. */
  ghost function Joined(item: Parsed, rest: Parsed): Parsed {
    if !item.Done? || item.isError then item else After([item.value], item.used, rest)
  }

  ghost function JoinedAt(item: Parsed, rest: Parsed): Parsed {
    if !item.Done? || item.isError then item else With([item.value], rest)
  }

  lemma {:induction false} ParseStep(s: string, n: nat, item: Parsed, rest: Parsed)
    requires n > 0 && item == Parse(s)
    requires item.Done? && !item.isError ==> rest == ParseItems(s[item.used..], n - 1)
    ensures ParseItems(s, n) == Joined(item, rest)
  {
  }

  lemma {:induction false} ReadStep(buffer: string, n: nat, next: nat, open: set<nat>, item: Parsed, rest: Parsed)
    requires 2 <= next <= |buffer| && n > 0 && item == ReadReply(buffer, next, open)
    requires item.Done? && !item.isError ==> rest == ReadItems(buffer, n - 1, item.used, open)
    ensures ReadItems(buffer, n, next, open) == JoinedAt(item, rest)
  {
  }

  lemma {:induction false} JoinSkips(next: nat, item: Parsed, rest: Parsed)
    ensures item.Done? && !item.isError ==>
      JoinedAt(Skip(next, item), Skip(next + item.used, rest)) == Skip(next, Joined(item, rest))
    ensures !item.Done? || item.isError ==> JoinedAt(Skip(next, item), rest) == Skip(next, Joined(item, rest))
    ensures !Joined(item, rest).Malformed? ==> !item.Malformed? && (item.Done? && !item.isError ==> !rest.Malformed?)
  {
  }

  lemma {:induction false} ItemsAgree(buffer: string, n: nat, next: nat, open: set<nat>)
    requires 2 <= next <= |buffer| && Behind(open, next) && !ParseItems(buffer[next..], n).Malformed?
    ensures ReadItems(buffer, n, next, open) == Skip(next, ParseItems(buffer[next..], n))
    decreases |buffer| - next, 1, n, 1
  {
    if n > 0 {
      var item := Parse(buffer[next..]);
      if item.Done? && !item.isError {
        MoreItemsAgree(buffer, n, next, open, item);
      } else {
        ParseStep(buffer[next..], n, item, item);
        ReplyAgrees(buffer, next, open);
        JoinSkips(next, item, item);
        ReadStep(buffer, n, next, open, Skip(next, item), item);
      }
    }
  }

  lemma {:induction false} MoreItemsAgree(buffer: string, n: nat, next: nat, open: set<nat>, item: Parsed)
    requires 2 <= next <= |buffer| && n > 0 && Behind(open, next) && !ParseItems(buffer[next..], n).Malformed?
    requires item == Parse(buffer[next..]) && item.Done? && !item.isError
    ensures ReadItems(buffer, n, next, open) == Skip(next, ParseItems(buffer[next..], n))
    decreases |buffer| - next, 1, n, 0
  {
    var after := next + item.used;
    assert buffer[next..][item.used..] == buffer[after..];
    var rest := ParseItems(buffer[after..], n - 1);
    ParseStep(buffer[next..], n, item, rest);
    JoinSkips(next, item, rest);
    ReplyAgrees(buffer, next, open);
    ItemsAgree(buffer, n - 1, after, open);
    ReadStep(buffer, n, next, open, Skip(next, item), Skip(after, rest));
  }

  /** What the protocol reads, the client reads alike. */
  lemma {:induction false} Agrees(s: string)
    requires !Parse(s).Malformed?
    ensures Read(s) == Parse(s)
  {
    assert s[0..] == s;
    ReplyAgrees(s, 0, {});
  }

  // ---------------------------------------------------------------- bytes no server writes

  /** What the first line is, and what is made of it. */
  lemma {:induction false} FirstLine(tag: char, line: string, s: string)
    requires IsTag(tag) && LineEnd(line) == |line|
    ensures var buffer := [tag] + line + "\r\n" + s;
      Read(buffer) == ReadTagged(buffer, 0, line, |line| + 3, {})
  {
    var buffer := [tag] + line + "\r\n" + s;
    HeaderReads(tag, line, s);
    LineEndAt(buffer, 1);
    assert buffer[1..] == line + ("\r\n" + s);
    assert buffer[1..|line| + 1] == line;
  }

  /** Nothing but the five marks starts a reply, and nothing is read before its first line has ended. */
  lemma {:induction false} OddStart(s: string)
    requires s != ""
    ensures s[0] != '+' && s[0] != '-' && s[0] != ':' && s[0] != '$' && s[0] != '*' ==> Read(s) == Malformed
    ensures s[0] in "+-:$*" && (forall i | 0 < i < |s| - 1 :: !(s[i] == '\r' && s[i + 1] == '\n')) ==> Read(s) == Incomplete
    ensures Read("") == Incomplete
  {
    if LineEndFrom(s, 1) < |s| { assert CrLfAt(s, LineEndFrom(s, 1)); }
  }

  /** A line of text, an error or a number is a reply by itself, whatever the line holds. */
  lemma {:induction false} LinesRead(line: string, s: string)
    requires LineEnd(line) == |line|
    ensures Read("+" + line + "\r\n" + s) == Done(Text(line), false, |line| + 3)
    ensures Read("-" + line + "\r\n" + s) == Done(Text(line), true, |line| + 3)
    ensures Read(":" + line + "\r\n" + s) == Done(Number(ParseInt(line)), false, |line| + 3)
  {
    FirstLine('+', line, s);
    FirstLine('-', line, s);
    FirstLine(':', line, s);
    assert "+" + line + "\r\n" + s == ['+'] + line + "\r\n" + s;
    assert "-" + line + "\r\n" + s == ['-'] + line + "\r\n" + s;
    assert ":" + line + "\r\n" + s == [':'] + line + "\r\n" + s;
  }

  /**
   A bulk string by the length on its line: none to be read there is an error and -1 is null; otherwise it is
   whole once its bytes and two more have come, and those two must be the line end.
   */
  lemma {:induction false} BulkRead(line: string, s: string)
    requires LineEnd(line) == |line|
    ensures var n := ParseInt(line); var r := Read("$" + line + "\r\n" + s);
      && (n.None? ==> r == Malformed)
      && (n == Some(-1) ==> r == Done(Null, false, |line| + 3))
      && (n.Some? && n.value >= 0 ==> r == BulkOf(s, n.value, |line| + 3))
  {
    var buffer, n, next := "$" + line + "\r\n" + s, ParseInt(line), |line| + 3;
    FirstLine('$', line, s);
    assert buffer == ['$'] + line + "\r\n" + s && buffer[next..] == s;
    if n.Some? && n.value >= 0 { BulkAt(buffer, n.value, next); }
  }

  /** `n` bytes of s and a line end. */
  ghost function BulkOf(s: string, n: nat, next: nat): Parsed {
    if |s| < n + 2 then Incomplete
    else if s[n..n + 2] == "\r\n" then Done(Text(s[..n]), false, next + n + 2)
    else Malformed
  }

  lemma {:induction false} BulkAt(buffer: string, n: nat, next: nat)
    requires 2 <= next <= |buffer|
    ensures ReadBulk(buffer, Some(n), next) == BulkOf(buffer[next..], n, next)
  {
    var s := buffer[next..];
    if |s| >= n + 2 {
      assert buffer[next..next + n] == s[..n];
      assert s[n..n + 2] == [buffer[next + n], buffer[next + n + 1]];
    }
  }

  /**
   Below -1 the line end is looked for that far back, inside the reply's own first line: a length of -2 finds it
   and makes an empty string, any other is an error.
   */
  lemma {:induction false} BackwardBulk(k: int, s: string)
    requires k > 1
    ensures Read("$" + IntText(-k) + "\r\n" + s) == if k == 2 then Done(Text(""), false, 5) else Malformed
  {
    var line := IntText(-k);
    var buffer, next := "$" + line + "\r\n" + s, |line| + 3;
    NoLineEnd(-k);
    ParseIntText(-k);
    FirstLine('$', line, s);
    assert buffer == ['$'] + line + "\r\n" + s;
    assert k == 2 ==> |Digits(2)| == 1;
    if k > 2 { FirstLineEnd(line, s, next - k); }
  }

  lemma {:induction false} FirstLineEnd(line: string, s: string, i: int)
    requires LineEnd(line) == |line| && i < |line| + 1
    ensures !CrLfAt("$" + line + "\r\n" + s, i)
  {
    var buffer := "$" + line + "\r\n" + s;
    HeaderReads('$', line, s);
    assert buffer[1..] == line + ("\r\n" + s);
    LineEndAt(buffer, 1);
    LineEndFirst(buffer, 1);
  }

  /** An array of no items, or of a count that is no number or below -1, is empty; -1 is null. */
  lemma {:induction false} OddArrays(line: string, s: string)
    requires LineEnd(line) == |line|
    ensures var n := ParseInt(line); var r := Read("*" + line + "\r\n" + s);
      && (n == Some(-1) ==> r == Done(Null, false, |line| + 3))
      && (n.None? || (n.value <= 0 && n.value != -1) ==> r == Done(List([]), false, |line| + 3))
  {
    FirstLine('*', line, s);
    assert "*" + line + "\r\n" + s == ['*'] + line + "\r\n" + s;
  }

  // ---------------------------------------------------------------- a stream of replies

  datatype Answer = Answer(value: Value, isError: bool)

  /** The replies read so far and the bytes left over. */
  datatype Drained = Drained(answers: seq<Answer>, rest: string)

  /** Reading replies off a buffer until none is complete.  Malformed bytes stay where they are. */
  function Drain(s: string): (d: Drained) { DrainBy(Read, s) }

  function DrainBy(read: string -> Parsed, s: string): (d: Drained)
    decreases |s|
  {
    var p := read(s);
    if p.Done? && 0 < p.used <= |s| then
      var d := DrainBy(read, s[p.used..]);
      d.(answers := [Answer(p.value, p.isError)] + d.answers)
    else Drained([], s)
  }

  ghost predicate StableAt(read: string -> Parsed, a: string, b: string) { Stable(read(a), read(a + b)) }

  ghost predicate StableReader(read: string -> Parsed) { forall a, b :: StableAt(read, a, b) }

  lemma {:induction false} DrainByOne(read: string -> Parsed, s: string, p: Parsed)
    requires p == read(s) && p.Done? && 0 < p.used <= |s|
    ensures var d := DrainBy(read, s[p.used..]);
      DrainBy(read, s) == Drained([Answer(p.value, p.isError)] + d.answers, d.rest)
  {
  }

  /** Bytes that come in two pieces are read as if they had come in one, by any reader of this kind. */
  lemma {:induction false} DrainByConcat(read: string -> Parsed, s: string, t: string)
    requires StableReader(read)
    ensures var d := DrainBy(read, s); var e := DrainBy(read, d.rest + t);
      DrainBy(read, s + t) == Drained(d.answers + e.answers, e.rest)
    decreases |s|
  {
    var p := read(s);
    if p.Done? && 0 < p.used <= |s| {
      var rest := s[p.used..];
      DrainByConcat(read, rest, t);
      var d := DrainBy(read, rest);
      OneThenConcat(read, s, t, p, d, DrainBy(read, d.rest + t));
    } else {
      assert DrainBy(read, s) == Drained([], s);
      JoinNone(DrainBy(read, s + t));
    }
  }

  lemma {:induction false} JoinNone(e: Drained)
    ensures Drained([] + e.answers, e.rest) == e
  {
  }

  lemma {:induction false} OneThenConcat(read: string -> Parsed, s: string, t: string, p: Parsed, d: Drained, e: Drained)
    requires StableReader(read) && p == read(s) && p.Done? && 0 < p.used <= |s|
    requires d == DrainBy(read, s[p.used..])
    requires DrainBy(read, s[p.used..] + t) == Drained(d.answers + e.answers, e.rest)
    ensures var one := [Answer(p.value, p.isError)];
      DrainBy(read, s) == Drained(one + d.answers, d.rest)
      && DrainBy(read, s + t) == Drained(one + d.answers + e.answers, e.rest)
  {
    var one := [Answer(p.value, p.isError)];
    assert StableAt(read, s, t);
    assert (s + t)[p.used..] == s[p.used..] + t;
    DrainByOne(read, s, p);
    DrainByOne(read, s + t, p);
    assert one + (d.answers + e.answers) == one + d.answers + e.answers;
  }

  lemma {:induction false} DrainConcat(s: string, t: string)
    ensures var d := Drain(s); var e := Drain(d.rest + t);
      Drain(s + t) == Drained(d.answers + e.answers, e.rest)
  {
    forall a: string, b: string ensures StableAt(Read, a, b) {
      ReadStable(a, b);
    }
    DrainByConcat(Read, s, t);
  }

  function Concat(chunks: seq<string>): string {
    if chunks == [] then "" else Concat(chunks[..|chunks| - 1]) + chunks[|chunks| - 1]
  }

  /** Handing over one chunk at a time. */
  function Feed(chunks: seq<string>): Drained {
    if chunks == [] then Drained([], "")
    else
      var before := Feed(chunks[..|chunks| - 1]);
      var now := Drain(before.rest + chunks[|chunks| - 1]);
      Drained(before.answers + now.answers, now.rest)
  }

  /** Any bytes, valid or not, split anyhow: the same replies in the same order and the same leftover. */
  lemma {:induction false} ChunkingIndependent(chunks: seq<string>)
    ensures Feed(chunks) == Drain(Concat(chunks))
  {
    if chunks != [] {
      ChunkingIndependent(chunks[..|chunks| - 1]);
      DrainConcat(Concat(chunks[..|chunks| - 1]), chunks[|chunks| - 1]);
    }
  }

  // ---------------------------------------------------------------- what a server writes

  /** Whatever follows it, a reply reads as its meaning, or as its first error at the point it is read. */
  lemma {:induction false} EncodeReads(r: Reply, t: string)
    requires WellFormed(r)
    ensures Read(Encode(r) + t) == Outcome(r)
  {
    EncodeParses(r, t);
    Agrees(Encode(r) + t);
  }

  /** A reply is read for what it is, whatever follows it, if and only if no error is nested in an array. */
  lemma {:induction false} ReadsFaithfullyIff(r: Reply, t: string)
    requires WellFormed(r)
    ensures Read(Encode(r) + t) == Done(Meaning(r), r.Error?, |Encode(r)|) <==> Clean(r)
  {
    EncodeReads(r, t);
    OutcomeIff(r);
  }

  /** A beginning of a reply is incomplete exactly as long as it is short of what reading the reply uses. */
  lemma {:induction false} PrefixIncompleteIff(r: Reply, k: nat)
    requires WellFormed(r) && k <= |Encode(r)|
    ensures Read(Encode(r)[..k]) == Incomplete <==> k < Outcome(r).used
  {
    var s := Encode(r);
    assert s + "" == s && s[..k] + s[k..] == s;
    EncodeParses(r, "");
    EncodeReads(r, "");
    if k < Outcome(r).used {
      ReadStable(s[..k], s[k..]);
    } else {
      ParseLocal(s, k);
      Agrees(s[..k]);
    }
  }

  function Answers(rs: seq<Reply>): (answers: seq<Answer>)
    ensures |answers| == |rs|
  {
    if rs == [] then [] else [Answer(Meaning(rs[0]), rs[0].Error?)] + Answers(rs[1..])
  }

  lemma {:induction false} DrainOne(s: string, p: Parsed)
    requires Read(s) == p
    ensures Drain(s) == if p.Done? then Drained([Answer(p.value, p.isError)] + Drain(s[p.used..]).answers, Drain(s[p.used..]).rest)
                        else Drained([], s)
  {
  }

  lemma {:induction false} CleanStreamDrains(rs: seq<Reply>)
    requires forall i | 0 <= i < |rs| :: WellFormed(rs[i]) && Clean(rs[i])
    ensures Drain(EncodeAll(rs)) == Drained(Answers(rs), "")
  {
    if rs == [] {
      DrainOne("", Incomplete);
    } else {
      var s := EncodeAll(rs);
      EncodeReads(rs[0], EncodeAll(rs[1..]));
      OutcomeIff(rs[0]);
      DrainOne(s, Outcome(rs[0]));
      assert s[|Encode(rs[0])|..] == EncodeAll(rs[1..]);
      CleanStreamDrains(rs[1..]);
    }
  }

  lemma {:induction false} DirtyStreamDiffers(rs: seq<Reply>, bad: nat)
    requires forall i | 0 <= i < |rs| :: WellFormed(rs[i])
    requires bad < |rs| && !Clean(rs[bad])
    ensures Drain(EncodeAll(rs)).answers != Answers(rs)
    decreases |rs|
  {
    var s, rest, p := EncodeAll(rs), EncodeAll(rs[1..]), Outcome(rs[0]);
    EncodeReads(rs[0], rest);
    OutcomeIff(rs[0]);
    DrainOne(s, p);
    var all := Drain(s).answers;
    if Clean(rs[0]) {
      assert s[|Encode(rs[0])|..] == rest;
      DirtyStreamDiffers(rs[1..], bad - 1);
      assert all[1..] == Drain(rest).answers && Answers(rs)[1..] == Answers(rs[1..]);
    } else {
      WholeIffErrorFree(rs[0]);
      assert all[0].isError && !Answers(rs)[0].isError;
    }
  }

  /**
   However its bytes are split, a stream of replies is delivered reply by reply, if and only if none of
   them has an error nested in an array.
   */
  lemma {:induction false} StreamDeliveredIff(rs: seq<Reply>, chunks: seq<string>)
    requires forall i | 0 <= i < |rs| :: WellFormed(rs[i])
    requires Concat(chunks) == EncodeAll(rs)
    ensures Feed(chunks).answers == Answers(rs) <==> forall i | 0 <= i < |rs| :: Clean(rs[i])
  {
    ChunkingIndependent(chunks);
    if forall i | 0 <= i < |rs| :: Clean(rs[i]) {
      CleanStreamDrains(rs);
    } else {
      var bad :| 0 <= bad < |rs| && !Clean(rs[bad]);
      DirtyStreamDiffers(rs, bad);
    }
  }

  /** A command read back gives its parts, in order, and uses its bytes exactly. */
  lemma {:induction false} CommandReadsBack(parts: seq<string>, t: string)
    ensures Read(EncodeCommand(parts) + t) == Done(List(TextValues(parts)), false, |EncodeCommand(parts)|)
  {
    PartsAreBulks(parts);
    var r := Array(Bulks(parts));
    assert EncodeCommand(parts) == Encode(r);
    ReadsFaithfullyIff(r, t);
  }
}
