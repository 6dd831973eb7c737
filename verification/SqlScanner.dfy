/**
 The quote-aware scanners of the grid SQL service
 (src/common/configured-grid-sql/configured-grid-sql.service.ts): stripping comments, and splitting a list
 at its top-level commas.  `Tokens` reads the text by the code's own quote rule, where a doubled quote
 inside a literal does not close it.
 */
module SqlScanner {
  import opened Prelude

  // ---------------------------------------------------------------- tokens

  predicate IsQuote(c: char) { c == '\'' || c == '"' }

  /** How much of s belongs to a literal already opened by q. */
  function QuotedLen(s: string, q: char): (n: nat)
    ensures n <= |s| && (s != "" ==> n > 0)
  {
    if s == "" then 0
    else if s[0] != q then 1 + QuotedLen(s[1..], q)
    else if |s| > 1 && s[1] == q then 2 + QuotedLen(s[2..], q)
    else 1
  }

  /** Up to the line break, which stays. */
  function LineLen(s: string): (n: nat)
    ensures n <= |s|
  {
    if s == "" || s[0] == '\n' then 0 else 1 + LineLen(s[1..])
  }

  /** Past the closing mark. */
  function BlockLen(s: string): (n: nat)
    ensures n <= |s|
  {
    if s == "" then 0
    else if s[0] == '*' && |s| > 1 && s[1] == '/' then 2
    else 1 + BlockLen(s[1..])
  }

  predicate OpensLine(s: string) { |s| > 1 && s[0] == '-' && s[1] == '-' }

  predicate OpensBlock(s: string) { |s| > 1 && s[0] == '/' && s[1] == '*' }

  predicate IsComment(s: string) { OpensLine(s) || OpensBlock(s) }

  predicate IsLiteral(s: string) { s != "" && IsQuote(s[0]) }

  /** A literal, a comment, or one character. */
  function TokenLen(s: string): (n: nat)
    requires s != ""
    ensures 0 < n <= |s|
  {
    if IsQuote(s[0]) then 1 + QuotedLen(s[1..], s[0])
    else if OpensLine(s) then 2 + LineLen(s[2..])
    else if OpensBlock(s) then 2 + BlockLen(s[2..])
    else 1
  }

  function Tokens(s: string): seq<string> {
    if s == "" then [] else [s[..TokenLen(s)]] + Tokens(s[TokenLen(s)..])
  }

  function Concat(tokens: seq<string>): string {
    if tokens == [] then "" else tokens[0] + Concat(tokens[1..])
  }

  function Clean(token: string): string { if IsComment(token) then " " else token }

  function CleanAll(tokens: seq<string>): (r: seq<string>)
    ensures |r| == |tokens|
    ensures forall i | 0 <= i < |r| :: r[i] == Clean(tokens[i])
  {
    seq(|tokens|, i requires 0 <= i < |tokens| => Clean(tokens[i]))
  }

  /** Comments go, each leaving a blank. */
  function Strip(s: string): string {
    if s == "" then "" else Clean(s[..TokenLen(s)]) + Strip(s[TokenLen(s)..])
  }

  // ---------------------------------------------------------------- what stripping does

  lemma {:induction false} TokensRejoin(s: string)
    ensures Concat(Tokens(s)) == s
  {
    if s != "" {
      TokensRejoin(s[TokenLen(s)..]);
      assert s == s[..TokenLen(s)] + s[TokenLen(s)..];
    }
  }

  lemma {:induction false} CommentToken(s: string)
    requires s != ""
    ensures IsComment(s[..TokenLen(s)]) == IsComment(s)
    ensures !IsComment(s) && !IsQuote(s[0]) ==> s[..TokenLen(s)] == [s[0]]
  {
  }

  lemma {:induction false} StripIsCleanTokens(s: string)
    ensures Strip(s) == Concat(CleanAll(Tokens(s)))
  {
    if s != "" {
      var n := TokenLen(s);
      StripIsCleanTokens(s[n..]);
      assert CleanAll(Tokens(s))[1..] == CleanAll(Tokens(s[n..]));
    }
  }

  /** Stripped text starts as the text does, unless that is a comment. */
  lemma {:induction false} StripStarts(s: string)
    ensures Strip(s) == "" <==> s == ""
    ensures s != "" ==> Strip(s)[0] == if IsComment(s) then ' ' else s[0]
  {
    if s != "" {
      CommentToken(s);
    }
  }

  /** A literal ends where it did, if what follows it does not start with its quote. */
  lemma {:induction false} QuotedLenStays(s: string, q: char, t: string)
    requires var n := QuotedLen(s, q);
      if n == |s| then t == "" || (t[0] != q && Terminated(s, q)) else t != "" ==> t[0] == s[n] || t[0] != q
    ensures QuotedLen(s[..QuotedLen(s, q)] + t, q) == QuotedLen(s, q)
  {
    var n := QuotedLen(s, q);
    var u := s[..n] + t;
    if s == "" {
    } else if s[0] != q {
      assert u[1..] == s[1..][..n - 1] + t;
      QuotedLenStays(s[1..], q, t);
    } else if |s| > 1 && s[1] == q {
      assert u[2..] == s[2..][..n - 2] + t;
      QuotedLenStays(s[2..], q, t);
    } else {
      assert |u| > 1 ==> u[1] == t[0];
    }
  }

  /** The literal is closed, not merely cut off by the end of the text. */
  predicate Terminated(s: string, q: char) {
    if s == "" then false
    else if s[0] != q then Terminated(s[1..], q)
    else if |s| > 1 && s[1] == q then Terminated(s[2..], q)
    else true
  }

  lemma {:induction false} NotClosedReachesEnd(s: string, q: char)
    ensures QuotedLen(s, q) < |s| ==> Terminated(s, q) && s[QuotedLen(s, q)] != q
  {
    if s != "" && s[0] != q {
      NotClosedReachesEnd(s[1..], q);
    } else if |s| > 1 && s[1] == q {
      NotClosedReachesEnd(s[2..], q);
    }
  }

  /** The first token of stripped text is the first token cleaned. */
  lemma {:induction false} FirstTokenStays(s: string)
    requires s != ""
    ensures var n := TokenLen(s); var head := Clean(s[..n]); var t := head + Strip(s[n..]);
      t != "" && TokenLen(t) == |head|
  {
    var n := TokenLen(s);
    var head, rest := Clean(s[..n]), Strip(s[n..]);
    CommentToken(s);
    StripStarts(s[n..]);
    if IsQuote(s[0]) {
      var q, body := s[0], s[1..];
      NotClosedReachesEnd(body, q);
      QuotedLenStays(body, q, rest);
      assert (head + rest)[1..] == body[..n - 1] + rest;
    } else if !IsComment(s) {
      assert n == 1 && head == [s[0]];
      assert rest != "" ==> (head + rest)[1] == rest[0];
    }
  }

  /**
   Reading the stripped text again gives the same tokens, each comment turned into a blank.  So no comment
   is left, and literals come through unchanged and in order.
   */
  lemma {:induction false} StripKeepsTokens(s: string)
    ensures Tokens(Strip(s)) == CleanAll(Tokens(s))
  {
    if s != "" {
      var n := TokenLen(s);
      var head, rest := Clean(s[..n]), Strip(s[n..]);
      StripKeepsTokens(s[n..]);
      FirstTokenStays(s);
      var t := head + rest;
      assert t[..|head|] == head && t[|head|..] == rest;
      assert CleanAll(Tokens(s)) == [head] + CleanAll(Tokens(s[n..]));
    }
  }

  lemma {:induction false} NoCommentLeft(s: string, i: nat)
    requires i < |Tokens(Strip(s))|
    ensures !IsComment(Tokens(Strip(s))[i])
  {
    StripKeepsTokens(s);
  }

  function Literals(tokens: seq<string>): seq<string> {
    if tokens == [] then []
    else if IsLiteral(tokens[0]) then [tokens[0]] + Literals(tokens[1..]) else Literals(tokens[1..])
  }

  lemma {:induction false} CleaningKeepsLiterals(tokens: seq<string>)
    ensures Literals(CleanAll(tokens)) == Literals(tokens)
  {
    if tokens != [] {
      CleaningKeepsLiterals(tokens[1..]);
      assert CleanAll(tokens)[1..] == CleanAll(tokens[1..]);
    }
  }

  lemma {:induction false} LiteralsSurvive(s: string)
    ensures Literals(Tokens(Strip(s))) == Literals(Tokens(s))
  {
    StripKeepsTokens(s);
    CleaningKeepsLiterals(Tokens(s));
  }

  lemma {:induction false} StripIdempotent(s: string)
    ensures Strip(Strip(s)) == Strip(s)
  {
    StripKeepsTokens(s);
    StripIsCleanTokens(s);
    StripIsCleanTokens(Strip(s));
    assert CleanAll(CleanAll(Tokens(s))) == CleanAll(Tokens(s));
  }

  // ---------------------------------------------------------------- in plain terms

  lemma {:induction false} LineLenMeaning(s: string)
    ensures '\n' !in s[..LineLen(s)] && (LineLen(s) < |s| ==> s[LineLen(s)] == '\n')
  {
    if s != "" && s[0] != '\n' {
      LineLenMeaning(s[1..]);
      assert s[..LineLen(s)] == [s[0]] + s[1..][..LineLen(s) - 1];
    }
  }

  /** A star and a slash stand at i. */
  predicate ClosesAt(s: string, i: nat) { i + 1 < |s| && s[i] == '*' && s[i + 1] == '/' }

  lemma {:induction false} BlockLenMeaning(s: string)
    ensures var n := BlockLen(s);
      if exists i: nat :: ClosesAt(s, i) then n >= 2 && ClosesAt(s, n - 2) && forall i: nat | ClosesAt(s, i) :: n - 2 <= i
      else n == |s|
  {
    if s != "" && !ClosesAt(s, 0) {
      var n := BlockLen(s);
      BlockLenMeaning(s[1..]);
      assert forall i: nat :: ClosesAt(s[1..], i) <==> ClosesAt(s, i + 1);
      assert forall i: nat | ClosesAt(s, i) :: i > 0 && ClosesAt(s[1..], i - 1);
      assert (exists i: nat :: ClosesAt(s[1..], i)) <==> (exists i: nat :: ClosesAt(s, i));
    }
  }

  /** Text as it stands inside a literal: each of its quotes doubled. */
  function Doubled(t: string, q: char): string {
    if t == "" then "" else (if t[0] == q then [q, q] else [t[0]]) + Doubled(t[1..], q)
  }

  /** A literal written so is read back whole: it ends at its own closing quote, or never when it has none. */
  lemma {:induction false} LiteralReads(t: string, q: char, rest: string)
    requires rest != "" ==> rest[0] == q && (|rest| > 1 ==> rest[1] != q)
    ensures QuotedLen(Doubled(t, q) + rest, q) == |Doubled(t, q)| + if rest == "" then 0 else 1
  {
    var s := Doubled(t, q) + rest;
    if t == "" {
      assert s == rest;
    } else {
      LiteralReads(t[1..], q, rest);
      if t[0] == q {
        assert s[2..] == Doubled(t[1..], q) + rest;
      } else {
        assert s[1..] == Doubled(t[1..], q) + rest;
      }
    }
  }

  lemma {:induction false} StripOne(token: string, rest: string)
    requires token != "" && TokenLen(token + rest) == |token|
    ensures Strip(token + rest) == Clean(token) + Strip(rest)
  {
    var s := token + rest;
    assert s[..|token|] == token && s[|token|..] == rest;
  }

  lemma {:induction false} LineReads(t: string, rest: string)
    requires '\n' !in t && (rest != "" ==> rest[0] == '\n')
    ensures LineLen(t + rest) == |t|
  {
    if t == "" {
      assert t + rest == rest;
    } else {
      assert (t + rest)[1..] == t[1..] + rest && '\n' !in t[1..];
      LineReads(t[1..], rest);
    }
  }

  /** A line comment becomes a blank, and the line break after it stays. */
  lemma {:induction false} LineCommentGoes(t: string, rest: string)
    requires '\n' !in t && (rest != "" ==> rest[0] == '\n')
    ensures Strip("--" + t + rest) == " " + Strip(rest)
  {
    var s := t + rest;
    assert ("--" + t + rest)[2..] == s;
    LineReads(t, rest);
    StripOne("--" + t, rest);
  }

  /** A block comment, closed by the first mark after its opening or by the end, becomes a blank. */
  lemma {:induction false} BlockCommentGoes(t: string, rest: string)
    requires rest == "" || (|t| >= 2 && ClosesAt(t, |t| - 2))
    requires forall i: nat | i + 2 < |t| :: !ClosesAt(t, i)
    ensures Strip("/*" + t + rest) == " " + Strip(rest)
  {
    var s := t + rest;
    assert ("/*" + t + rest)[2..] == s;
    BlockLenMeaning(s);
    assert forall i: nat | i + 1 < |t| :: ClosesAt(s, i) <==> ClosesAt(t, i);
    if rest != "" {
      assert ClosesAt(s, |t| - 2);
    } else {
      assert s == t;
    }
    assert BlockLen(s) == |t|;
    StripOne("/*" + t, rest);
  }

  /** A literal in either kind of quotes stays, comment marks and line breaks in it included. */
  lemma {:induction false} LiteralStays(t: string, q: char, rest: string)
    requires q == '\'' || q == '"'
    requires rest != "" ==> rest[0] != q
    ensures Strip([q] + Doubled(t, q) + [q] + rest) == [q] + Doubled(t, q) + [q] + Strip(rest)
  {
    var token := [q] + Doubled(t, q) + [q];
    assert (token + rest)[1..] == Doubled(t, q) + ([q] + rest);
    LiteralReads(t, q, [q] + rest);
    assert !IsComment(token);
    StripOne(token, rest);
  }

  /** A literal that is never closed stays as well, to the end of the text. */
  lemma {:induction false} OpenLiteralStays(t: string, q: char)
    requires q == '\'' || q == '"'
    ensures Strip([q] + Doubled(t, q)) == [q] + Doubled(t, q)
  {
    var token := [q] + Doubled(t, q);
    assert (token + "")[1..] == Doubled(t, q) + "" && Doubled(t, q) + "" == Doubled(t, q);
    LiteralReads(t, q, "");
    assert !IsComment(token) && token + "" == token && Clean(token) + Strip("") == token;
    StripOne(token, "");
  }

  /** Any other character stays, on its own. */
  lemma {:induction false} OtherStays(c: char, rest: string)
    requires c != '\'' && c != '"'
    requires rest != "" ==> !(c == '-' && rest[0] == '-') && !(c == '/' && rest[0] == '*')
    ensures Strip([c] + rest) == [c] + Strip(rest)
  {
    StripOne([c], rest);
  }

  // ---------------------------------------------------------------- the stripping loop

  /** What is still to be written, given the literal one is in. */
  ghost function StripFrom(quote: Option<char>, s: string): string {
    if quote.None? then Strip(s)
    else s[..QuotedLen(s, quote.value)] + Strip(s[QuotedLen(s, quote.value)..])
  }

  lemma {:induction false} QuoteGoesOn(q: char, s: string, k: nat)
    requires s != "" && k <= |s| && QuotedLen(s, q) == k + QuotedLen(s[k..], q)
    ensures StripFrom(Some(q), s) == s[..k] + StripFrom(Some(q), s[k..])
  {
    var n := QuotedLen(s, q);
    CutTwice(s, k, n, Strip(s[n..]));
  }

  lemma {:induction false} CutTwice(s: string, k: nat, n: nat, t: string)
    requires k <= n <= |s|
    ensures s[n..] == s[k..][n - k..] && s[..n] + t == s[..k] + (s[k..][..n - k] + t)
  {
    assert s[..n] == s[..k] + s[k..][..n - k];
  }

  lemma {:induction false} QuoteCloses(q: char, s: string)
    requires s != "" && QuotedLen(s, q) == 1
    ensures StripFrom(Some(q), s) == s[..1] + StripFrom(None, s[1..])
  {
  }

  lemma {:induction false} OpenStep(s: string)
    requires s != "" && IsQuote(s[0])
    ensures Strip(s) == s[..1] + StripFrom(Some(s[0]), s[1..])
  {
    var n := TokenLen(s);
    CutTwice(s, 1, n, Strip(s[n..]));
    CommentToken(s);
  }

  lemma {:induction false} PlainStep(s: string, n: nat)
    requires s != "" && !IsQuote(s[0]) && n == TokenLen(s)
    ensures Strip(s) == (if IsComment(s) then " " else [s[0]]) + Strip(s[n..])
  {
    CommentToken(s);
  }

  method SkipLine(sql: string, start: nat) returns (index: nat)
    requires start <= |sql|
    ensures index == start + LineLen(sql[start..])
  {
    index := start;
    while index < |sql| && sql[index] != '\n'
      invariant start <= index <= |sql|
      invariant index + LineLen(sql[index..]) == start + LineLen(sql[start..])
    {
      assert sql[index..][1..] == sql[index + 1..];
      index := index + 1;
    }
  }

  method SkipBlock(sql: string, start: nat) returns (index: nat)
    requires start <= |sql|
    ensures index == start + BlockLen(sql[start..])
  {
    index := start;
    while index < |sql| && !(sql[index] == '*' && index + 1 < |sql| && sql[index + 1] == '/')
      invariant start <= index <= |sql|
      invariant index + BlockLen(sql[index..]) == start + BlockLen(sql[start..])
    {
      assert sql[index..][1..] == sql[index + 1..];
      index := index + 1;
    }
    if index < |sql| {
      index := index + 2;
    }
  }

  /** One turn of the loop inside a literal. */
  method QuotedTurn(sql: string, index: nat, q: char) returns (emit: string, next: nat, quote: Option<char>)
    requires index < |sql|
    ensures index < next <= |sql|
    ensures StripFrom(Some(q), sql[index..]) == emit + StripFrom(quote, sql[next..])
  {
    ghost var s := sql[index..];
    var current := sql[index];
    if current == q && index + 1 < |sql| && sql[index + 1] == q {
      QuoteGoesOn(q, s, 2);
      assert s[2..] == sql[index + 2..] && s[..2] == [q, q];
      return [current, q], index + 2, Some(q);
    }
    assert s[1..] == sql[index + 1..] && s[..1] == [current];
    if current == q {
      QuoteCloses(q, s);
      return [current], index + 1, None;
    }
    QuoteGoesOn(q, s, 1);
    return [current], index + 1, Some(q);
  }

  /** One turn of the loop outside literals. */
  method PlainTurn(sql: string, index: nat) returns (emit: string, next: nat, quote: Option<char>)
    requires index < |sql|
    ensures index < next <= |sql|
    ensures Strip(sql[index..]) == emit + StripFrom(quote, sql[next..])
  {
    ghost var s := sql[index..];
    var current := sql[index];
    assert s[1..] == sql[index + 1..] && s[..1] == [current];
    if IsQuote(current) {
      OpenStep(s);
      return [current], index + 1, Some(current);
    }
    PlainStep(s, TokenLen(s));
    var after := if index + 1 < |sql| then Some(sql[index + 1]) else None;
    if current == '-' && after == Some('-') {
      assert s[2..] == sql[index + 2..];
      next := SkipLine(sql, index + 2);
      emit := " ";
    } else if current == '/' && after == Some('*') {
      assert s[2..] == sql[index + 2..];
      next := SkipBlock(sql, index + 2);
      emit := " ";
    } else {
      next := index + 1;
      emit := [current];
    }
    quote := None;
    assert s[TokenLen(s)..] == sql[next..];
  }

  /** One turn of the loop: what it writes, where it goes on, and the literal it is then in. */
  method Turn(sql: string, index: nat, quote: Option<char>) returns (emit: string, next: nat, quote': Option<char>)
    requires index < |sql|
    ensures index < next <= |sql|
    ensures StripFrom(quote, sql[index..]) == emit + StripFrom(quote', sql[next..])
  {
    if quote.Some? {
      emit, next, quote' := QuotedTurn(sql, index, quote.value);
    } else {
      emit, next, quote' := PlainTurn(sql, index);
    }
  }

  /** What is written so far and what is still to come. */
  ghost predicate Stripping(sql: string, all: string, result: string, index: nat, quote: Option<char>) {
    index <= |sql| && result + StripFrom(quote, sql[index..]) == all
  }

  lemma {:induction false} Emitted(result: string, emit: string, before: string, after: string, all: string)
    requires before == emit + after && result + before == all
    ensures (result + emit) + after == all
  {
  }

  method StripSqlComments(sql: string) returns (result: string)
    ensures result == Strip(sql)
  {
    result := "";
    var quote: Option<char> := None;
    var index := 0;
    ghost var all := Strip(sql);
    assert sql[0..] == sql;
    while index < |sql|
      invariant Stripping(sql, all, result, index, quote)
    {
      var emit, next, quote' := Turn(sql, index, quote);
      Emitted(result, emit, StripFrom(quote, sql[index..]), StripFrom(quote', sql[next..]), all);
      result, index, quote := result + emit, next, quote';
    }
    assert sql[index..] == "";
  }
}
