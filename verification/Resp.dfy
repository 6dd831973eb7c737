/**
 The Redis serialization protocol (RESP2) as a server writes it and as it is read strictly forward: lines,
 numbers, replies and their bytes.  A buffer is a string with one character per byte.  The client's own
 reader (src/common/redis/redis-cache.service.ts) is in RespReader.dfy and agrees with `Parse` wherever
 `Parse` does not find the bytes malformed.

 `Parse` reads one reply from the start of the bytes at hand and says how many it used.  It is total:
 `Incomplete` is the client's null, `Malformed` its thrown error.
 */
module Resp {
  import opened Prelude
  import opened Decimal

  /** None is the NaN of a line that holds no number. */
  datatype Value = Text(text: string) | Number(number: Option<int>) | Null | List(items: seq<Value>)

  datatype Parsed = Incomplete | Malformed | Done(value: Value, isError: bool, used: nat)

  // ---------------------------------------------------------------- lines and numbers

  predicate CrLfAt(s: string, i: int) { 0 <= i < |s| - 1 && s[i] == '\r' && s[i + 1] == '\n' }

  /** The first line end, or |s| when there is none. */
  function LineEnd(s: string): (i: nat)
    ensures i <= |s| && (i < |s| ==> CrLfAt(s, i))
  {
    LineEndFrom(s, 0)
  }

  function LineEndFrom(s: string, from: nat): (i: nat)
    requires from <= |s|
    ensures from <= i <= |s| && (i < |s| ==> CrLfAt(s, i))
    decreases |s| - from
  {
    if from == |s| || CrLfAt(s, from) then from else LineEndFrom(s, from + 1)
  }

  /** It is the first one. */
  lemma {:induction false} LineEndFirst(s: string, from: nat)
    requires from <= |s|
    ensures forall j | from <= j < LineEndFrom(s, from) :: !CrLfAt(s, j)
    decreases |s| - from
  {
    if from < |s| && !CrLfAt(s, from) {
      LineEndFirst(s, from + 1);
    }
  }

  /** A blank of ASCII: the bytes of a line are not decoded. */
  predicate IsBlank(c: char) { c == ' ' || '\t' <= c <= '\r' }

  function SkipBlanks(s: string): string { if s != "" && IsBlank(s[0]) then SkipBlanks(s[1..]) else s }

  function DigitPrefix(s: string): (r: string)
    ensures AllDigits(r)
  {
    if s != "" && IsDigit(s[0]) then [s[0]] + DigitPrefix(s[1..]) else ""
  }

  function Unsigned(s: string): Option<int> {
    if DigitPrefix(s) == "" then None else Some(NumberIn(DigitPrefix(s)))
  }

  /** Number.parseInt(line, 10): blanks, a sign, and as many digits as there are. */
  function ParseInt(line: string): Option<int> {
    var s := SkipBlanks(line);
    if s == "" then None
    else if s[0] == '-' then
      var n := Unsigned(s[1..]);
      if n.Some? then Some(-n.value) else None
    else if s[0] == '+' then Unsigned(s[1..])
    else Unsigned(s)
  }

  predicate AllBlank(s: string) { forall i | 0 <= i < |s| :: s[i] in " \t\n\r\U{B}\U{C}" }

  /** The digits a number is read from: after blanks and at most one sign, up to the first other character. */
  lemma {:induction false} ParseIntMeaning(blanks: string, sign: string, digits: string, rest: string)
    requires AllBlank(blanks) && (sign == "" || sign == "+" || sign == "-") && AllDigits(digits) && digits != ""
    requires rest != "" ==> !('0' <= rest[0] <= '9')
    ensures var n: int := NumberIn(digits);
      ParseInt(blanks + (sign + (digits + rest))) == Some(if sign == "-" then -n else n)
  {
    var tail := digits + rest;
    DigitsThen(digits, rest);
    BlanksThen(blanks, sign + tail);
    SignThen(sign, tail);
  }

  lemma {:induction false} SignThen(sign: string, tail: string)
    requires sign == "" || sign == "+" || sign == "-"
    requires tail != "" && IsDigit(tail[0])
    ensures sign + tail != "" && SkipBlanks(sign + tail) == sign + tail
    ensures sign == "" ==> sign + tail == tail
    ensures sign != "" ==> (sign + tail)[0] == sign[0] && (sign + tail)[1..] == tail
  {
  }

  /** Anything else is no number. */
  lemma {:induction false} ParseIntNone(blanks: string, rest: string)
    requires AllBlank(blanks)
    requires rest != "" ==> rest[0] !in " \t\n\r\U{B}\U{C}" && !('0' <= rest[0] <= '9')
    requires rest != "" && rest[0] in "+-" && |rest| > 1 ==> !('0' <= rest[1] <= '9')
    ensures ParseInt(blanks + rest) == None
  {
    BlanksThen(blanks, rest);
  }

  lemma {:induction false} BlanksThen(blanks: string, s: string)
    requires AllBlank(blanks) && (s != "" ==> s[0] !in " \t\n\r\U{B}\U{C}")
    ensures SkipBlanks(blanks + s) == s
  {
    if blanks == "" {
      assert blanks + s == s;
    } else {
      assert (blanks + s)[1..] == blanks[1..] + s;
      BlanksThen(blanks[1..], s);
    }
  }

  lemma {:induction false} DigitsThen(digits: string, rest: string)
    requires AllDigits(digits) && (rest != "" ==> !IsDigit(rest[0]))
    ensures DigitPrefix(digits + rest) == digits
  {
    if digits == "" {
      assert digits + rest == rest;
    } else {
      assert (digits + rest)[1..] == digits[1..] + rest;
      DigitsThen(digits[1..], rest);
    }
  }

  // ---------------------------------------------------------------- the reader

  predicate IsTag(c: char) { c == '+' || c == '-' || c == ':' || c == '$' || c == '*' }

  function Parse(s: string): (r: Parsed)
    ensures r.Done? ==> 0 < r.used <= |s|
    decreases |s|, 0, 0
  {
    if s == "" then Incomplete
    else if !IsTag(s[0]) then Malformed
    else
      var end := LineEnd(s[1..]) + 1;
      if end == |s| then Incomplete else Skip(end + 2, ParseTagged(s[0], s[1..end], s[end + 2..]))
  }

  /** A reply by its tag and the rest of its first line; `s` is what follows the line. */
  function ParseTagged(tag: char, line: string, s: string): (r: Parsed)
    requires IsTag(tag)
    ensures r.Done? ==> r.used <= |s|
    decreases |s| + 1, 0, 0
  {
    match tag
    case '+' => Done(Text(line), false, 0)
    case '-' => Done(Text(line), true, 0)
    case ':' => Done(Number(ParseInt(line)), false, 0)
    case '$' => ParseBulk(ParseInt(line), s)
    case _ => ParseArray(ParseInt(line), s)
  }

  /** A result that was reached after the first `used` bytes. */
  function Skip(used: nat, p: Parsed): Parsed {
    if p.Done? then p.(used := used + p.used) else p
  }

  /** The bytes of a bulk string. */
  function ParseBulk(length: Option<int>, s: string): (r: Parsed)
    ensures r.Done? ==> r.used <= |s|
  {
    if length == Some(-1) then Done(Null, false, 0)
    else if length.None? || length.value < 0 then Malformed
    else if |s| < length.value + 2 then Incomplete
    else if !CrLfAt(s, length.value) then Malformed
    else Done(Text(s[..length.value]), false, length.value + 2)
  }

  function ParseArray(count: Option<int>, s: string): (r: Parsed)
    ensures r.Done? ==> r.used <= |s|
    decreases |s|, if count.Some? && count.value > 0 then count.value else 0, 1
  {
    if count == Some(-1) then Done(Null, false, 0)
    else if count.Some? && count.value > 0 then ParseItems(s, count.value)
    else Done(List([]), false, 0)
  }

  /** The next n items.  An error among them is the result of the whole array, at the point it is read. */
  function ParseItems(s: string, n: nat): (r: Parsed)
    ensures r.Done? ==> r.used <= |s|
    ensures r.Done? && !r.isError ==> r.value.List?
    decreases |s|, n, 0
  {
    if n == 0 then Done(List([]), false, 0)
    else
      var item := Parse(s);
      if !item.Done? || item.isError then item
      else After([item.value], item.used, ParseItems(s[item.used..], n - 1))
  }

  /** The result of a list whose first items and their bytes were already read. */
  function After(values: seq<Value>, used: nat, rest: Parsed): Parsed {
    if rest.Done? && !rest.isError && rest.value.List?
    then Done(List(values + rest.value.items), false, used + rest.used)
    else Skip(used, rest)
  }

  // ---------------------------------------------------------------- only the bytes used matter

  /** Cutting a text after a line end leaves the line end where it was. */
  lemma {:induction false} LineEndCut(s: string, k: nat)
    requires LineEnd(s) + 2 <= k <= |s|
    ensures LineEnd(s[..k]) == LineEnd(s)
  {
    var i, j := LineEnd(s), LineEnd(s[..k]);
    LineEndFirst(s, 0);
    LineEndFirst(s[..k], 0);
    assert CrLfAt(s[..k], i);
    assert j < i ==> CrLfAt(s, j);
  }

  /** The first `used` bytes decide the result. */
  lemma {:induction false} ParseLocal(s: string, k: nat)
    requires Parse(s).Done? && Parse(s).used <= k <= |s|
    ensures Parse(s[..k]) == Parse(s)
    decreases |s|, 0
  {
    var end := LineEnd(s[1..]) + 1;
    var rest := s[end + 2..];
    TaggedUses(s[0], s[1..end], rest);
    LineEndCut(s[1..], k - 1);
    assert s[..k][1..] == s[1..][..k - 1];
    assert s[..k][1..end] == s[1..end];
    assert s[..k][end + 2..] == rest[..k - end - 2];
    TaggedLocal(s[0], s[1..end], rest, k - end - 2);
  }

  lemma {:induction false} TaggedUses(tag: char, line: string, s: string)
    requires IsTag(tag)
    ensures ParseTagged(tag, line, s).Done? ==> ParseTagged(tag, line, s).used <= |s|
  {
  }

  lemma {:induction false} TaggedLocal(tag: char, line: string, s: string, k: nat)
    requires IsTag(tag) && ParseTagged(tag, line, s).Done? && ParseTagged(tag, line, s).used <= k <= |s|
    ensures ParseTagged(tag, line, s[..k]) == ParseTagged(tag, line, s)
    decreases |s| + 1, 0
  {
    var n := ParseInt(line);
    if tag == '$' && n.Some? && n.value >= 0 {
      assert s[..k][..n.value] == s[..n.value];
      assert CrLfAt(s[..k], n.value) == CrLfAt(s, n.value);
    } else if tag == '*' && n.Some? && n.value > 0 {
      ItemsLocal(s, n.value, k);
    }
  }

  lemma {:induction false} ItemsLocal(s: string, n: nat, k: nat)
    requires ParseItems(s, n).Done? && ParseItems(s, n).used <= k <= |s|
    ensures ParseItems(s[..k], n) == ParseItems(s, n)
    decreases |s|, n
  {
    if n > 0 {
      var item := Parse(s);
      ItemFirst(s, n);
      ParseLocal(s, k);
      if !item.isError {
        assert s[..k][item.used..] == s[item.used..][..k - item.used];
        ItemsLocal(s[item.used..], n - 1, k - item.used);
      }
    }
  }

  lemma {:induction false} ItemFirst(s: string, n: nat)
    requires n > 0 && ParseItems(s, n).Done?
    ensures var item := Parse(s); var all := ParseItems(s, n);
      && item.Done? && item.used <= all.used
      && (!item.isError ==>
            var rest := ParseItems(s[item.used..], n - 1); rest.Done? && all.used == item.used + rest.used)
  {
  }

  // ---------------------------------------------------------------- the replies of a server

  datatype Reply =
    | Simple(text: string)
    | Error(text: string)
    | Integer(n: int)
    | Bulk(text: string)
    | NullBulk
    | Array(items: seq<Reply>)
    | NullArray

  function IntText(n: int): string { if n < 0 then "-" + Digits(-n) else Digits(n) }

  function Encode(r: Reply): string {
    match r
    case Simple(text) => "+" + text + "\r\n"
    case Error(text) => "-" + text + "\r\n"
    case Integer(n) => ":" + IntText(n) + "\r\n"
    case Bulk(text) => "$" + IntText(|text|) + "\r\n" + (text + "\r\n")
    case NullBulk => "$" + IntText(-1) + "\r\n"
    case Array(items) => "*" + IntText(|items|) + "\r\n" + EncodeAll(items)
    case NullArray => "*" + IntText(-1) + "\r\n"
  }

  function EncodeAll(rs: seq<Reply>): string {
    if rs == [] then "" else Encode(rs[0]) + EncodeAll(rs[1..])
  }

  function Meaning(r: Reply): Value {
    match r
    case Simple(text) => Text(text)
    case Error(text) => Text(text)
    case Integer(n) => Number(Some(n))
    case Bulk(text) => Text(text)
    case NullBulk => Null
    case Array(items) => List(Meanings(items))
    case NullArray => Null
  }

  function Meanings(rs: seq<Reply>): (vs: seq<Value>)
    ensures |vs| == |rs|
  {
    if rs == [] then [] else [Meaning(rs[0])] + Meanings(rs[1..])
  }

  /** A simple string or an error holds no line end. */
  predicate WellFormed(r: Reply) {
    match r
    case Simple(text) => LineEnd(text) == |text|
    case Error(text) => LineEnd(text) == |text|
    case Array(items) => forall i | 0 <= i < |items| :: WellFormed(items[i])
    case _ => true
  }

  /** The bytes up to the end of the first error, which is where reading stops. */
  datatype Cut = Whole | CutAt(text: string, used: nat)

  function FirstError(r: Reply): Cut {
    match r
    case Error(text) => CutAt(text, |Encode(r)|)
    case Array(items) => Later(|IntText(|items|)| + 3, FirstErrorIn(items))
    case _ => Whole
  }

  function FirstErrorIn(rs: seq<Reply>): Cut {
    if rs == [] then Whole
    else
      var first := FirstError(rs[0]);
      if first.CutAt? then first else Later(|Encode(rs[0])|, FirstErrorIn(rs[1..]))
  }

  function Later(skipped: nat, c: Cut): Cut {
    if c.CutAt? then c.(used := skipped + c.used) else c
  }

  /** No error inside an array. */
  predicate Clean(r: Reply) {
    r.Array? ==> forall i | 0 <= i < |r.items| :: ErrorFree(r.items[i])
  }

  predicate ErrorFree(r: Reply) { !r.Error? && (r.Array? ==> forall i | 0 <= i < |r.items| :: ErrorFree(r.items[i])) }

  // ---------------------------------------------------------------- reading back what a server writes

  lemma {:induction false} DigitPrefixAll(s: string)
    requires AllDigits(s)
    ensures DigitPrefix(s) == s
  {
    if s != "" {
      DigitPrefixAll(s[1..]);
    }
  }

  lemma {:induction false} UnsignedDigits(n: nat)
    ensures Unsigned(Digits(n)) == Some(n)
  {
    DigitPrefixAll(Digits(n));
    ValueDigits(n);
  }

  lemma {:induction false} ParseIntText(n: int)
    ensures ParseInt(IntText(n)) == Some(n)
    ensures LineEnd(IntText(n)) == |IntText(n)|
  {
    NoLineEnd(n);
    if n < 0 {
      UnsignedDigits(-n);
      assert IntText(n)[1..] == Digits(-n);
    } else {
      UnsignedDigits(n);
      assert IsDigit(IntText(n)[0]);
    }
  }

  lemma {:induction false} NoLineEnd(n: int)
    ensures LineEnd(IntText(n)) == |IntText(n)|
  {
    var digits := Digits(if n < 0 then -n else n);
    forall i | 0 <= i < |IntText(n)| ensures IntText(n)[i] != '\r' {
      assert IntText(n)[i] == '-' || IsDigit(IntText(n)[i]) by {
        assert IntText(n) == if n < 0 then "-" + digits else digits;
      }
    }
  }

  /** The header line of a reply is found and cut out again. */
  lemma {:induction false} HeaderReads(tag: char, line: string, rest: string)
    requires LineEnd(line) == |line|
    ensures var s := [tag] + line + "\r\n" + rest; var end := |line| + 1;
      && LineEnd(s[1..]) + 1 == end
      && s[1..end] == line && s[end + 2..] == rest && s[0] == tag && |s| == end + 2 + |rest|
  {
    var s := [tag] + line + "\r\n" + rest;
    assert s[1..] == line + "\r\n" + rest;
    assert CrLfAt(s[1..], |line|);
    var j := LineEnd(s[1..]);
    LineEndFirst(s[1..], 0);
    LineEndFirst(line, 0);
    assert j < |line| - 1 ==> CrLfAt(line, j);
  }

  lemma {:induction false} LineParses(tag: char, line: string, rest: string)
    requires IsTag(tag) && LineEnd(line) == |line|
    ensures Parse([tag] + line + "\r\n" + rest) == Skip(|line| + 3, ParseTagged(tag, line, rest))
  {
    HeaderReads(tag, line, rest);
  }

  /** What reading a reply comes to. */
  function Outcome(r: Reply): Parsed {
    var cut := FirstError(r);
    if cut.CutAt? then Done(Text(cut.text), true, cut.used) else Done(Meaning(r), false, |Encode(r)|)
  }

  function OutcomeIn(rs: seq<Reply>): Parsed {
    var cut := FirstErrorIn(rs);
    if cut.CutAt? then Done(Text(cut.text), true, cut.used) else Done(List(Meanings(rs)), false, |EncodeAll(rs)|)
  }

  /** Whatever follows it, a reply reads as its meaning, or as its first error. */
  lemma {:induction false} EncodeParses(r: Reply, t: string)
    requires WellFormed(r)
    ensures Parse(Encode(r) + t) == Outcome(r)
    decreases r, 0
  {
    match r {
      case Array(items) =>
        ItemsParse(items, t);
        ArrayBytes(items, t);
        ArrayParses(items, EncodeAll(items) + t, OutcomeIn(items));
      case Bulk(text) => BulkParses(text, t);
      case _ => LineReplyParses(r, t);
    }
  }

  lemma {:induction false} LineReplyParses(r: Reply, t: string)
    requires WellFormed(r) && !r.Array? && !r.Bulk?
    ensures Parse(Encode(r) + t) == Outcome(r)
  {
    var tag := Encode(r)[0];
    var line := match r
      case Simple(text) => text
      case Error(text) => text
      case Integer(n) => IntText(n)
      case _ => IntText(-1);
    ParseIntText(if r.Integer? then r.n else -1);
    assert Encode(r) + t == [tag] + line + "\r\n" + t;
    LineParses(tag, line, t);
  }

  lemma {:induction false} BulkParses(text: string, t: string)
    ensures Parse(Encode(Bulk(text)) + t) == Outcome(Bulk(text))
  {
    ParseIntText(|text|);
    var body := text + "\r\n" + t;
    LineParses('$', IntText(|text|), body);
    assert Encode(Bulk(text)) + t == ['$'] + IntText(|text|) + "\r\n" + body;
    assert body[..|text|] == text;
    assert CrLfAt(body, |text|);
  }

  lemma {:induction false} CountedItems(n: nat, s: string, p: Parsed)
    requires ParseItems(s, n) == p
    ensures ParseTagged('*', IntText(n), s) == p
  {
    ParseIntText(n);
  }

  lemma {:induction false} ArrayBytes(items: seq<Reply>, t: string)
    ensures Encode(Array(items)) + t == ['*'] + IntText(|items|) + "\r\n" + (EncodeAll(items) + t)
  {
  }

  lemma {:induction false} ArrayParses(items: seq<Reply>, s: string, p: Parsed)
    requires ParseItems(s, |items|) == p
    ensures Parse(['*'] + IntText(|items|) + "\r\n" + s) == Skip(|IntText(|items|)| + 3, p)
  {
    ParseIntText(|items|);
    LineParses('*', IntText(|items|), s);
    CountedItems(|items|, s, p);
  }

  lemma {:induction false} EncodeAllCut(rs: seq<Reply>, t: string)
    requires rs != []
    ensures EncodeAll(rs) + t == Encode(rs[0]) + (EncodeAll(rs[1..]) + t)
    ensures (EncodeAll(rs) + t)[|Encode(rs[0])|..] == EncodeAll(rs[1..]) + t
  {
  }

  lemma {:induction false} ItemsParse(rs: seq<Reply>, t: string)
    requires forall i | 0 <= i < |rs| :: WellFormed(rs[i])
    ensures ParseItems(EncodeAll(rs) + t, |rs|) == OutcomeIn(rs)
    decreases rs, 1
  {
    if rs != [] {
      var rest := EncodeAll(rs[1..]) + t;
      EncodeAllCut(rs, t);
      EncodeParses(rs[0], rest);
      ItemsParse(rs[1..], t);
    }
  }

  lemma {:induction false} WholeIffErrorFree(r: Reply)
    ensures FirstError(r).Whole? <==> ErrorFree(r)
    decreases r, 0
  {
    if r.Array? {
      WholeIffAllFree(r.items);
    }
  }

  lemma {:induction false} WholeIffAllFree(rs: seq<Reply>)
    ensures FirstErrorIn(rs).Whole? <==> forall i | 0 <= i < |rs| :: ErrorFree(rs[i])
    decreases rs, 1
  {
    if rs != [] {
      WholeIffErrorFree(rs[0]);
      WholeIffAllFree(rs[1..]);
      assert forall i | 0 <= i < |rs| :: ErrorFree(rs[i]) == if i == 0 then ErrorFree(rs[0]) else ErrorFree(rs[1..][i - 1]);
      assert forall i | 0 <= i < |rs[1..]| :: rs[1..][i] == rs[i + 1];
    }
  }

  /** A reply is read for what it is, whatever follows it, if and only if no error is nested in an array. */
  lemma {:induction false} OutcomeIff(r: Reply)
    ensures Outcome(r) == Done(Meaning(r), r.Error?, |Encode(r)|) <==> Clean(r)
  {
    WholeIffErrorFree(r);
  }

  // ---------------------------------------------------------------- commands

  /** The parts are bytes already. */
  function EncodeCommand(parts: seq<string>): string {
    "*" + Digits(|parts|) + "\r\n" + EncodeParts(parts)
  }

  function EncodeParts(parts: seq<string>): string {
    if parts == [] then "" else "$" + Digits(|parts[0]|) + "\r\n" + parts[0] + "\r\n" + EncodeParts(parts[1..])
  }

  function Bulks(parts: seq<string>): (rs: seq<Reply>)
    ensures |rs| == |parts| && forall i | 0 <= i < |rs| :: rs[i] == Bulk(parts[i])
  {
    seq(|parts|, i requires 0 <= i < |parts| => Bulk(parts[i]))
  }

  function TextValues(parts: seq<string>): seq<Value> {
    seq(|parts|, i requires 0 <= i < |parts| => Text(parts[i]))
  }

  lemma {:induction false} PartsAreBulks(parts: seq<string>)
    ensures EncodeParts(parts) == EncodeAll(Bulks(parts))
    ensures Meanings(Bulks(parts)) == TextValues(parts)
  {
    if parts != [] {
      PartsAreBulks(parts[1..]);
      assert Bulks(parts)[1..] == Bulks(parts[1..]);
      assert TextValues(parts) == [Text(parts[0])] + TextValues(parts[1..]);
      var head := "$" + Digits(|parts[0]|) + "\r\n";
      assert head + parts[0] + "\r\n" == head + (parts[0] + "\r\n") == Encode(Bulk(parts[0]));
    }
  }
}
