/**
 The next batch number (src/common/utils/batch-number.util.ts): one past the highest number of its series,
 counting on while the result is taken, letter case and surrounding blanks aside.  Numbers are exact.
 */
module BatchNumbers {
  import opened Prelude
  import opened Decimal
  import opened Texts

  datatype Sequence = Sequence(prefix: string, number: nat, width: nat)

  // ---------------------------------------------------------------- keys

  function LowerChar(c: char): char { if 'A' <= c <= 'Z' then c - 'A' + 'a' else c }

  function Lower(s: string): (r: string)
    ensures |r| == |s| && forall i | 0 <= i < |s| :: r[i] == LowerChar(s[i])
  {
    seq(|s|, i requires 0 <= i < |s| => LowerChar(s[i]))
  }

  function Key(s: string): string { Lower(Trim(s)) }

  /** The keys in use; a blank entry uses none. */
  function Keys(existing: seq<string>): set<string> {
    if existing == [] then {}
    else
      var before, b := Keys(existing[..|existing| - 1]), existing[|existing| - 1];
      if Trim(b) == "" then before else before + {Key(b)}
  }

  // ---------------------------------------------------------------- reading and writing

  function TailLen(s: string): (n: nat)
    ensures n <= |s| && forall i | |s| - n <= i < |s| :: IsDigit(s[i])
    ensures n < |s| ==> !IsDigit(s[|s| - n - 1])
  {
    if s != "" && IsDigit(s[|s| - 1]) then TailLen(s[..|s| - 1]) + 1 else 0
  }

  /** Holds a character that the pattern's dot does not match. */
  predicate HasBreak(s: string) { exists i :: 0 <= i < |s| && IsLineEnd(s[i]) }

  /** Everything before the trailing digits, on one line, and the number they make. */
  function ParseSequence(batchNo: string): Option<Sequence> {
    var s := Trim(batchNo);
    var n := TailLen(s);
    var prefix, tail := s[..|s| - n], s[|s| - n..];
    if n == 0 || HasBreak(prefix) then None else Some(Sequence(prefix, NumberIn(tail), n))
  }

  function Format(prefix: string, number: nat, width: nat): string {
    prefix + Pad(Digits(number), Max(width, |Digits(number)|))
  }

  /** A configured prefix ends in a separator. */
  function ConfiguredPrefix(prefix: Option<string>): Option<string> {
    if prefix.None? || Trim(prefix.value) == "" then None
    else
      var p := Trim(prefix.value);
      Some(if p[|p| - 1] in "-_/" then p else p + "-")
  }

  // ---------------------------------------------------------------- where to start

  predicate InSeries(s: Sequence, configured: Option<string>) {
    configured.None? || Key(s.prefix) == Key(configured.value)
  }

  /** The first of the highest-numbered entries of the series. */
  function Highest(existing: seq<string>, configured: Option<string>): Option<Sequence> {
    if existing == [] then None
    else
      var best := Highest(existing[..|existing| - 1], configured);
      var s := ParseSequence(existing[|existing| - 1]);
      if s.Some? && InSeries(s.value, configured) && (best.None? || s.value.number > best.value.number) then s else best
  }

  /** The first number to try. */
  function Start(existing: seq<string>, configured: Option<string>): Sequence {
    var highest := Highest(existing, configured);
    if highest.Some? then highest.value.(number := highest.value.number + 1)
    else if configured.Some? then Sequence(configured.value, 1, 2)
    else Sequence("B-", 1, 1)
  }

  lemma {:induction false} HighestIsHighest(existing: seq<string>, configured: Option<string>, i: nat)
    requires i < |existing| && ParseSequence(existing[i]).Some? && InSeries(ParseSequence(existing[i]).value, configured)
    ensures Highest(existing, configured).Some?
    ensures ParseSequence(existing[i]).value.number <= Highest(existing, configured).value.number
  {
    if i < |existing| - 1 {
      HighestIsHighest(existing[..|existing| - 1], configured, i);
    }
  }

  lemma {:induction false} HighestIsOne(existing: seq<string>, configured: Option<string>)
    requires Highest(existing, configured).Some?
    ensures InSeries(Highest(existing, configured).value, configured)
    ensures exists i :: 0 <= i < |existing| && ParseSequence(existing[i]) == Highest(existing, configured)
  {
    var n := |existing| - 1;
    if Highest(existing, configured) == Highest(existing[..n], configured) {
      HighestIsOne(existing[..n], configured);
      var i :| 0 <= i < n && ParseSequence(existing[..n][i]) == Highest(existing, configured);
      assert existing[i] == existing[..n][i];
    }
  }

  // ---------------------------------------------------------------- distinct numbers have distinct keys

  lemma {:induction false} TrimKeepsTail(prefix: string, tail: string)
    requires tail != "" && AllDigits(tail)
    ensures Trim(prefix + tail) == TrimLeft(prefix) + tail
  {
    var s := prefix + tail;
    if prefix != "" && IsBlank(prefix[0]) {
      assert s[1..] == prefix[1..] + tail;
      TrimKeepsTail(prefix[1..], tail);
    } else {
      assert s != "" && !IsBlank(s[0]);
      assert s[|s| - 1] == tail[|tail| - 1];
    }
  }

  function Tail(number: nat, width: nat): (t: string)
    ensures t != "" && AllDigits(t)
  {
    Pad(Digits(number), Max(width, |Digits(number)|))
  }

  lemma {:induction false} FormatKey(prefix: string, number: nat, width: nat)
    ensures Key(Format(prefix, number, width)) == Lower(TrimLeft(prefix)) + Tail(number, width)
  {
    TrimKeepsTail(prefix, Tail(number, width));
  }

  lemma {:induction false} FormatInjective(prefix: string, width: nat, a: nat, b: nat)
    requires Key(Format(prefix, a, width)) == Key(Format(prefix, b, width))
    ensures a == b
  {
    var head := Lower(TrimLeft(prefix));
    FormatKey(prefix, a, width);
    FormatKey(prefix, b, width);
    assert (head + Tail(a, width))[|head|..] == Tail(a, width);
    assert (head + Tail(b, width))[|head|..] == Tail(b, width);
    PadReadsBack(a, Max(width, |Digits(a)|));
    PadReadsBack(b, Max(width, |Digits(b)|));
  }

  lemma {:induction false} FewerKeysThanEntries(existing: seq<string>)
    ensures |Keys(existing)| <= |existing|
  {
    if existing != [] {
      FewerKeysThanEntries(existing[..|existing| - 1]);
    }
  }

  lemma {:induction false} KeyHasEntry(existing: seq<string>, key: string) returns (i: nat)
    requires key in Keys(existing)
    ensures i < |existing| && Key(existing[i]) == key
  {
    var n := |existing| - 1;
    if key in Keys(existing[..n]) {
      i := KeyHasEntry(existing[..n], key);
    } else {
      i := n;
    }
  }

  /** The keys of the first `tries` numbers tried from `first`, as `text` writes them. */
  ghost function TriedKeys(text: nat -> string, first: nat, tries: nat): set<string> {
    if tries == 0 then {} else TriedKeys(text, first, tries - 1) + {Key(text(first + tries - 1))}
  }

  ghost predicate Injective(text: nat -> string) { forall a, b :: Key(text(a)) == Key(text(b)) ==> a == b }

  lemma {:induction false} NotTried(text: nat -> string, first: nat, tries: nat, number: nat)
    requires Injective(text) && first + tries <= number
    ensures Key(text(number)) !in TriedKeys(text, first, tries)
  {
    if tries > 0 {
      NotTried(text, first, tries - 1, number);
      assert Key(text(number)) != Key(text(first + tries - 1));
    }
  }

  lemma {:induction false} TriesAreDistinct(text: nat -> string, first: nat, tries: nat)
    requires Injective(text)
    ensures |TriedKeys(text, first, tries)| == tries
  {
    if tries > 0 {
      TriesAreDistinct(text, first, tries - 1);
      NotTried(text, first, tries - 1, first + tries - 1);
    }
  }

  /** No more numbers can be tried and found taken than there are keys. */
  lemma {:induction false} TakenAtMost(keys: set<string>, text: nat -> string, first: nat, tries: nat)
    requires Injective(text) && TriedKeys(text, first, tries) <= keys
    ensures tries <= |keys|
  {
    TriesAreDistinct(text, first, tries);
    SubsetSmaller(TriedKeys(text, first, tries), keys);
  }

  lemma {:induction false} SubsetSmaller(a: set<string>, b: set<string>)
    requires a <= b
    ensures |a| <= |b|
  {
    if a != {} {
      var x :| x in a;
      SubsetSmaller(a - {x}, b - {x});
    }
  }

  /** Counting on from `first` while the result is taken. */
  method FirstFree(keys: set<string>, text: nat -> string, first: nat) returns (candidate: string, ghost tries: nat)
    requires Injective(text)
    ensures candidate == text(first + tries) && Key(candidate) !in keys
    ensures TriedKeys(text, first, tries) <= keys && tries <= |keys|
  {
    var number := first;
    tries := 0;
    candidate := text(number);
    while Key(candidate) in keys
      invariant number == first + tries && candidate == text(number)
      invariant TriedKeys(text, first, tries) <= keys && tries <= |keys|
      decreases |keys| - tries
    {
      TakenAtMost(keys, text, first, tries + 1);
      number := number + 1;
      tries := tries + 1;
      candidate := text(number);
    }
  }

  function TextOf(s: Sequence): nat -> string { (number: nat) => Format(s.prefix, number, s.width) }

  lemma {:induction false} TextInjective(s: Sequence)
    ensures Injective(TextOf(s))
  {
    forall a: nat, b: nat ensures Key(TextOf(s)(a)) == Key(TextOf(s)(b)) ==> a == b {
      if Key(TextOf(s)(a)) == Key(TextOf(s)(b)) {
        FormatInjective(s.prefix, s.width, a, b);
      }
    }
  }

  /**
   The first free number of the series from its start, all before it being taken; it is found within as many
   tries as there are entries.
   */
  method GenerateNextBatchNo(existing: seq<string>, prefix: Option<string>) returns (candidate: string, ghost tries: nat)
    ensures Key(candidate) !in Keys(existing) && tries <= |existing|
    ensures var s := Start(existing, ConfiguredPrefix(prefix));
      candidate == TextOf(s)(s.number + tries) && TriedKeys(TextOf(s), s.number, tries) <= Keys(existing)
  {
    var keys, s := Keys(existing), Start(existing, ConfiguredPrefix(prefix));
    FewerKeysThanEntries(existing);
    TextInjective(s);
    candidate, tries := FirstFree(keys, TextOf(s), s.number);
  }

  // ---------------------------------------------------------------- in plain terms

  /** Keys put the letters A to Z down and leave everything else. */
  lemma {:induction false} LowerMeaning(s: string, i: nat)
    requires i < |s|
    ensures 'A' <= s[i] <= 'Z' ==> 'a' <= Lower(s)[i] <= 'z' && Lower(s)[i] as int == s[i] as int + 32
    ensures !('A' <= s[i] <= 'Z') ==> Lower(s)[i] == s[i]
  {
  }

  /** A key is in use if and only if an entry that is not blank has it. */
  lemma {:induction false} KeysMeaning(existing: seq<string>, key: string)
    ensures key in Keys(existing) <==> exists i | 0 <= i < |existing| :: Trim(existing[i]) != "" && Lower(Trim(existing[i])) == key
  {
    if existing != [] {
      var n := |existing| - 1;
      KeysMeaning(existing[..n], key);
      assert forall i | 0 <= i < n :: existing[..n][i] == existing[i];
    }
  }

  /** A configured prefix, blanks off, gets a dash unless it ends in '-', '_' or '/'; a blank one is none. */
  lemma {:induction false} ConfiguredMeaning(prefix: string)
    ensures ConfiguredPrefix(None) == None
    ensures Trim(prefix) == "" <==> ConfiguredPrefix(Some(prefix)).None?
    ensures Trim(prefix) != "" ==>
      var p := Trim(prefix); var last := p[|p| - 1];
      ConfiguredPrefix(Some(prefix)) == Some(if last == '-' || last == '_' || last == '/' then p else p + "-")
  {
  }

  /** Whatever the prefix, the number has at least `width` digits, and only zeros were put in front. */
  lemma {:induction false} FormatMeaning(prefix: string, number: nat, width: nat) returns (digits: string)
    ensures Format(prefix, number, width) == prefix + digits && AllDigits(digits) && NumberIn(digits) == number
    ensures |digits| >= width && (|digits| > width ==> digits == Digits(number))
  {
    var n := Digits(number);
    digits := Pad(n, Max(width, |n|));
    PadReadsBack(number, Max(width, |n|));
  }

  /** No entry of the series before the i-th has so high a number, and none after it a higher one. */
  ghost predicate FirstHighest(existing: seq<string>, configured: Option<string>, i: nat) {
    && i < |existing| && ReadsInSeries(existing[i], configured)
    && forall j | 0 <= j < |existing| && ReadsInSeries(existing[j], configured) ::
         var a, b := ParseSequence(existing[j]).value.number, ParseSequence(existing[i]).value.number;
         a <= b && (j < i ==> a < b)
  }

  ghost predicate ReadsInSeries(entry: string, configured: Option<string>) {
    var s := ParseSequence(entry);
    s.Some? && (configured.Some? ==> Lower(Trim(s.value.prefix)) == Lower(Trim(configured.value)))
  }

  lemma {:induction false} NoneOneMore(before: seq<string>, entry: string, configured: Option<string>)
    requires forall i | 0 <= i < |before| :: !ReadsInSeries(before[i], configured)
    ensures ReadsInSeries(entry, configured) ==> FirstHighest(before + [entry], configured, |before|)
    ensures !ReadsInSeries(entry, configured) ==>
      forall i | 0 <= i < |before + [entry]| :: !ReadsInSeries((before + [entry])[i], configured)
  {
    var all := before + [entry];
    assert forall i | 0 <= i < |before| :: all[i] == before[i];
  }

  lemma {:induction false} OneMore(before: seq<string>, entry: string, configured: Option<string>, i: nat)
    requires FirstHighest(before, configured, i)
    ensures var s, best := ParseSequence(entry), ParseSequence(before[i]).value;
      FirstHighest(before + [entry], configured,
                   if ReadsInSeries(entry, configured) && s.value.number > best.number then |before| else i)
  {
    var all := before + [entry];
    assert forall j | 0 <= j < |before| :: all[j] == before[j];
  }

  lemma {:induction false} HighestOneMore(before: seq<string>, entry: string, configured: Option<string>)
    ensures var s, best := ParseSequence(entry), Highest(before, configured);
      Highest(before + [entry], configured)
        == if ReadsInSeries(entry, configured) && (best.None? || s.value.number > best.value.number) then s else best
  {
    assert (before + [entry])[..|before|] == before;
  }

  ghost predicate BestIs(existing: seq<string>, configured: Option<string>, best: Option<Sequence>) {
    if best.None? then forall i | 0 <= i < |existing| :: !ReadsInSeries(existing[i], configured)
    else exists i: nat :: FirstHighest(existing, configured, i) && best == ParseSequence(existing[i])
  }

  lemma {:induction false} HighestFound(existing: seq<string>, configured: Option<string>)
    ensures BestIs(existing, configured, Highest(existing, configured))
  {
    if existing != [] {
      var n := |existing| - 1;
      var before, entry := existing[..n], existing[n];
      HighestFound(before, configured);
      assert existing == before + [entry];
      HighestOneMore(before, entry, configured);
      if Highest(before, configured).None? {
        NoneOneMore(before, entry, configured);
      } else {
        var i: nat :| FirstHighest(before, configured, i) && Highest(before, configured) == ParseSequence(before[i]);
        OneMore(before, entry, configured, i);
        assert before[i] == existing[i];
      }
    }
  }

  /**
   Where the search starts: exactly one past the first of the highest entries of the series, in its prefix and
   width; without one at 1, after the configured prefix with two digits, or after "B-" with one.
   */
  lemma {:induction false} StartMeaning(existing: seq<string>, configured: Option<string>)
    ensures var start := Start(existing, configured);
      || (exists i: nat :: FirstHighest(existing, configured, i)
            && var s := ParseSequence(existing[i]).value;
               start.number == s.number + 1 && start.prefix == s.prefix && start.width == s.width)
      || ((forall i | 0 <= i < |existing| :: !ReadsInSeries(existing[i], configured))
            && start.number == 1 && (configured.Some? ==> start.prefix == configured.value && start.width == 2)
            && (configured.None? ==> start.prefix == "B-" && start.width == 1))
  {
    HighestFound(existing, configured);
  }

  // ---------------------------------------------------------------- the first try is free

  /** The key of the first number tried. */
  function StartKey(existing: seq<string>, configured: Option<string>): string {
    var s := Start(existing, configured);
    Key(Format(s.prefix, s.number, s.width))
  }

  lemma {:induction false} TailOf(u: string, tail: string)
    requires AllDigits(tail) && (u != "" ==> !IsDigit(u[|u| - 1]))
    ensures TailLen(u + tail) == |tail|
  {
    var s := u + tail;
    if tail == "" {
      assert s == u;
    } else {
      assert s[..|s| - 1] == u + tail[..|tail| - 1];
      TailOf(u, tail[..|tail| - 1]);
      assert IsDigit(s[|s| - 1]);
    }
  }

  /** Letter case apart, an entry with this key is a prefix like this one and the same digits. */
  lemma {:induction false} SameKeySplits(t: string, prefix: string, tail: string)
    requires Lower(t) == Lower(prefix) + tail && AllDigits(tail)
    ensures |prefix| <= |t| && t == t[..|prefix|] + tail && Lower(t[..|prefix|]) == Lower(prefix)
  {
    var u := t[..|prefix|];
    forall i | 0 <= i < |t| ensures LowerChar(t[i]) == if i < |prefix| then LowerChar(prefix[i]) else tail[i - |prefix|] {
      assert Lower(t)[i] == LowerChar(t[i]);
    }
    assert Lower(u) == Lower(prefix);
    assert t[|prefix|..] == tail;
  }

  /** One line, not ending in a digit: what a number can be read after. */
  predicate Plain(prefix: string) { !HasBreak(prefix) && (prefix != "" ==> !IsDigit(prefix[|prefix| - 1])) }

  lemma {:induction false} PlainByLower(u: string, prefix: string)
    requires Lower(u) == Lower(prefix) && Plain(prefix)
    ensures Plain(u)
  {
    assert |u| == |Lower(u)| == |prefix|;
    forall i | 0 <= i < |u| ensures LowerChar(u[i]) == LowerChar(prefix[i]) && !IsLineEnd(u[i]) {
      assert Lower(u)[i] == Lower(prefix)[i];
    }
  }

  lemma {:induction false} Reads(u: string, tail: string)
    requires Plain(u) && tail != "" && AllDigits(tail) && Trim(u + tail) == u + tail
    ensures ParseSequence(u + tail) == Some(Sequence(u, NumberIn(tail), |tail|))
  {
    TailOf(u, tail);
    var t := u + tail;
    assert t[..|t| - |tail|] == u && t[|t| - |tail|..] == tail;
  }

  /** An entry, blanks off, is read as what stands before its trailing digits and the number they make. */
  lemma {:induction false} ParseMeaning(batchNo: string, prefix: string, digits: string)
    requires Trim(batchNo) == prefix + digits && AllDigits(digits)
    requires prefix != "" ==> !('0' <= prefix[|prefix| - 1] <= '9')
    ensures ParseSequence(batchNo)
         == if digits == "" || (exists i :: 0 <= i < |prefix| && IsLineEnd(prefix[i])) then None
            else Some(Sequence(prefix, NumberIn(digits), |digits|))
  {
    TailOf(prefix, digits);
    var t := prefix + digits;
    assert t[..|t| - |digits|] == prefix && t[|t| - |digits|..] == digits;
  }

  lemma {:induction false} TrimLowers(s: string)
    ensures Trim(Lower(s)) == Lower(Trim(s))
  {
    TrimLeftLowers(s);
    TrimRightLowers(TrimLeft(s));
  }

  lemma {:induction false} TrimLeftLowers(s: string)
    ensures TrimLeft(Lower(s)) == Lower(TrimLeft(s))
  {
    if s != "" && IsBlank(s[0]) {
      assert Lower(s)[1..] == Lower(s[1..]);
      TrimLeftLowers(s[1..]);
    }
  }

  lemma {:induction false} TrimRightLowers(s: string)
    ensures TrimRight(Lower(s)) == Lower(TrimRight(s))
  {
    if s != "" && IsBlank(s[|s| - 1]) {
      assert Lower(s)[..|s| - 1] == Lower(s[..|s| - 1]);
      TrimRightLowers(s[..|s| - 1]);
    }
  }

  lemma {:induction false} TrimTwice(s: string)
    ensures Trim(Trim(s)) == Trim(s)
    ensures TrimLeft(Trim(s)) == Trim(s)
  {
    TrimLeftEnds(s);
    TrimRightEnds(TrimLeft(s));
  }

  lemma {:induction false} TrimLeftEnds(s: string)
    ensures TrimLeft(s) != "" ==> !IsBlank(TrimLeft(s)[0])
  {
    if s != "" && IsBlank(s[0]) {
      TrimLeftEnds(s[1..]);
    }
  }

  lemma {:induction false} TrimRightEnds(s: string)
    ensures var r := TrimRight(s); r != "" ==> !IsBlank(r[|r| - 1]) && r[0] == s[0] && s != ""
  {
    if s != "" && IsBlank(s[|s| - 1]) {
      TrimRightEnds(s[..|s| - 1]);
    }
  }

  lemma {:induction false} ParseIsTrimmed(b: string)
    ensures ParseSequence(b) == ParseSequence(Trim(b))
  {
    TrimTwice(b);
  }

  /** A prefix read from an entry, or configured on one line, starts without blanks and can be read again. */
  lemma {:induction false} PrefixRead(b: string)
    requires ParseSequence(b).Some?
    ensures var p := ParseSequence(b).value.prefix; Plain(p) && TrimLeft(p) == p
  {
    var t := Trim(b);
    var p := ParseSequence(b).value.prefix;
    TrimTwice(b);
    assert p != "" ==> p[0] == t[0];
    TrimLeftEnds(b);
    TrimRightEnds(TrimLeft(b));
  }

  lemma {:induction false} StartIsPlain(existing: seq<string>, configured: Option<string>)
    requires configured.Some? ==> Plain(configured.value) && TrimLeft(configured.value) == configured.value
    ensures var s := Start(existing, configured); Plain(s.prefix) && TrimLeft(s.prefix) == s.prefix
    ensures configured.Some? ==> Key(Start(existing, configured).prefix) == Key(configured.value)
  {
    if Highest(existing, configured).Some? {
      HighestIsOne(existing, configured);
      var i :| 0 <= i < |existing| && ParseSequence(existing[i]) == Highest(existing, configured);
      PrefixRead(existing[i]);
    } else if configured.None? {
      assert "B-"[1] == '-' && "B-"[0] == 'B';
    }
  }

  lemma {:induction false} ConfiguredIsTrimmed(prefix: Option<string>)
    ensures var p := ConfiguredPrefix(prefix);
      p.Some? ==> TrimLeft(p.value) == p.value && p.value != "" && !IsDigit(p.value[|p.value| - 1])
  {
    if ConfiguredPrefix(prefix).Some? {
      TrimTwice(prefix.value);
      var t, p := Trim(prefix.value), ConfiguredPrefix(prefix).value;
      TrimLeftEnds(prefix.value);
      TrimRightEnds(TrimLeft(prefix.value));
      assert p[0] == t[0];
    }
  }

  /**
   While the configured prefix is on one line the first number tried is always free: an entry with its key
   would have been read as part of the series, and the start lies beyond all of those.
   */
  lemma {:induction false} FirstTryFree(existing: seq<string>, prefix: Option<string>)
    requires prefix.Some? ==> !HasBreak(Trim(prefix.value))
    ensures StartKey(existing, ConfiguredPrefix(prefix)) !in Keys(existing)
  {
    var configured := ConfiguredPrefix(prefix);
    var s := Start(existing, configured);
    ConfiguredIsTrimmed(prefix);
    StartIsPlain(existing, configured);
    if StartKey(existing, configured) in Keys(existing) {
      var i := KeyHasEntry(existing, StartKey(existing, configured));
      FormatKey(s.prefix, s.number, s.width);
      TakenIsRead(existing[i], s, configured);
      HighestIsHighest(existing, configured, i);
    }
  }

  lemma {:induction false} TakenIsRead(b: string, s: Sequence, configured: Option<string>)
    requires Plain(s.prefix) && Key(b) == Lower(s.prefix) + Tail(s.number, s.width)
    requires configured.Some? ==> Key(s.prefix) == Key(configured.value)
    ensures var r := ParseSequence(b); r.Some? && r.value.number == s.number && InSeries(r.value, configured)
  {
    var t, tail := Trim(b), Tail(s.number, s.width);
    SameKeySplits(t, s.prefix, tail);
    var u := t[..|s.prefix|];
    PlainByLower(u, s.prefix);
    TrimTwice(b);
    Reads(u, tail);
    ParseIsTrimmed(b);
    PadReadsBack(s.number, Max(s.width, |Digits(s.number)|));
    TrimLowers(u);
    TrimLowers(s.prefix);
  }

  /** A prefix broken over lines is never read back, so its own first number starts the series again. */
  lemma {:induction false} BrokenPrefixRepeats(prefix: string)
    requires HasBreak(Trim(prefix))
    ensures var c := ConfiguredPrefix(Some(prefix));
      c.Some? && StartKey([Format(c.value, 1, 2)], c) in Keys([Format(c.value, 1, 2)])
  {
    var c := ConfiguredPrefix(Some(prefix));
    ConfiguredIsTrimmed(Some(prefix));
    var b, tail := Format(c.value, 1, 2), Tail(1, 2);
    TrimKeepsTail(c.value, tail);
    assert Trim(b) == b;
    TailOf(c.value, tail);
    assert b[..|b| - |tail|] == c.value;
    assert HasBreak(c.value) by {
      var i :| 0 <= i < |Trim(prefix)| && IsLineEnd(Trim(prefix)[i]);
      assert c.value[i] == Trim(prefix)[i];
    }
    assert ParseSequence(b) == None;
    var existing := [b];
    assert existing[0] == b && existing[..0] == [];
    assert Highest(existing[..0], c) == None;
    assert Highest(existing, c) == None;
  }

  /** Whatever numbers exist the first try is free, if and only if the configured prefix is on one line. */
  lemma {:induction false} FirstTryFreeIff(prefix: Option<string>)
    ensures (forall existing :: StartKey(existing, ConfiguredPrefix(prefix)) !in Keys(existing))
       <==> (prefix.Some? ==> !HasBreak(Trim(prefix.value)))
  {
    if prefix.Some? && HasBreak(Trim(prefix.value)) {
      BrokenPrefixRepeats(prefix.value);
    } else {
      forall existing ensures StartKey(existing, ConfiguredPrefix(prefix)) !in Keys(existing) {
        FirstTryFree(existing, prefix);
      }
    }
  }
}
