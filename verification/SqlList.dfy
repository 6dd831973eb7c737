/**
 Splitting a list at its top-level commas
 (src/common/configured-grid-sql/configured-grid-sql.service.ts, splitTopLevelCommaSeparated): commas in
 literals or parentheses do not count, and a closing parenthesis too many is ignored.
 */
module SqlList {
  import opened Prelude
  import opened SqlScanner
  import opened Texts

  /** A literal or one character; comments mean nothing here. */
  function UnitLen(s: string): (n: nat)
    requires s != ""
    ensures 0 < n <= |s|
  {
    if IsQuote(s[0]) then 1 + QuotedLen(s[1..], s[0]) else 1
  }

  function Depth(c: char, depth: nat): nat {
    if c == '(' then depth + 1 else if c == ')' && depth > 0 then depth - 1 else depth
  }

  predicate Splits(c: char, depth: nat) { c == ',' && depth == 0 }

  /** Adding text in front of the first piece. */
  function Before(t: string, pieces: seq<string>): (r: seq<string>)
    requires pieces != []
    ensures r != []
  {
    [t + pieces[0]] + pieces[1..]
  }

  /** The pieces as they stand, untrimmed. */
  function Pieces(s: string, depth: nat): (r: seq<string>)
    ensures r != []
    decreases |s|
  {
    if s == "" then [""]
    else if Splits(s[0], depth) then [""] + Pieces(s[1..], 0)
    else Before(s[..UnitLen(s)], Pieces(s[UnitLen(s)..], Depth(s[0], depth)))
  }

  function Join(pieces: seq<string>): string
    requires pieces != []
  {
    if |pieces| == 1 then pieces[0] else pieces[0] + "," + Join(pieces[1..])
  }

  // ---------------------------------------------------------------- rejoining

  lemma {:induction false} JoinBefore(t: string, pieces: seq<string>)
    requires pieces != []
    ensures Join(Before(t, pieces)) == t + Join(pieces)
  {
    if |pieces| > 1 {
      var rest := Join(pieces[1..]);
      assert Before(t, pieces)[1..] == pieces[1..];
      assert t + pieces[0] + "," + rest == t + (pieces[0] + "," + rest);
    }
  }

  /** The untrimmed pieces rejoin to the text. */
  lemma {:induction false} PiecesRejoin(s: string, depth: nat)
    ensures Join(Pieces(s, depth)) == s
    decreases |s|
  {
    if s != "" && Splits(s[0], depth) {
      PiecesRejoin(s[1..], 0);
      assert ([""] + Pieces(s[1..], 0))[1..] == Pieces(s[1..], 0);
    } else if s != "" {
      var n := UnitLen(s);
      PiecesRejoin(s[n..], Depth(s[0], depth));
      JoinBefore(s[..n], Pieces(s[n..], Depth(s[0], depth)));
    }
  }

  // ---------------------------------------------------------------- no comma left

  /** A literal cut off from what followed it, up to a comma, is the same literal. */
  lemma {:induction false} UnitStays(s: string, p: string, more: string)
    requires s != "" && UnitLen(s) <= |s| - |more| && s == s[..UnitLen(s)] + p + more
    requires more != "" ==> more[0] == ','
    ensures s[..UnitLen(s)] + p != "" && UnitLen(s[..UnitLen(s)] + p) == UnitLen(s)
  {
    var n := UnitLen(s);
    var t := s[..n] + p;
    if IsQuote(s[0]) {
      var q, body := s[0], s[1..];
      NotClosedReachesEnd(body, q);
      assert t[1..] == body[..n - 1] + p;
      if n < |s| {
        assert s[n] == body[n - 1];
        assert p != "" ==> p[0] == s[n];
        QuotedLenStays(body, q, p);
      } else {
        QuotedLenStays(body, q, p);
      }
    }
  }

  /** How a text starts with its first piece. */
  lemma {:induction false} FirstPiece(s: string, depth: nat)
    ensures var ps := Pieces(s, depth); |ps[0]| <= |s| && s[..|ps[0]|] == ps[0]
    ensures var ps := Pieces(s, depth); if |ps| == 1 then s == ps[0] else |ps[0]| < |s| && s[|ps[0]|] == ','
  {
    var ps := Pieces(s, depth);
    PiecesRejoin(s, depth);
    assert s[..|ps[0]|] == ps[0];
  }

  lemma {:induction false} UnitStep(s: string, n: nat, depth: nat)
    requires s != "" && !Splits(s[0], depth) && n == UnitLen(s)
    ensures Pieces(s, depth) == Before(s[..n], Pieces(s[n..], Depth(s[0], depth)))
  {
  }

  /** A unit in front of a text that is one piece. */
  lemma {:induction false} UnitThenOne(t: string, n: nat, p: string, depth: nat)
    requires t != "" && !Splits(t[0], depth) && n == UnitLen(t) && t[n..] == p
    requires Pieces(p, Depth(t[0], depth)) == [p]
    ensures Pieces(t, depth) == [t]
  {
    UnitStep(t, n, depth);
    assert t[..n] + p == t;
  }

  lemma {:induction false} FirstPieceCut(s: string, n: nat, p: string, depth: nat)
    requires s != "" && !Splits(s[0], depth) && n == UnitLen(s) && p == Pieces(s[n..], Depth(s[0], depth))[0]
    ensures var t := s[..n] + p; t != "" && UnitLen(t) == n && t[0] == s[0] && t[n..] == p
  {
    FirstPiece(s[n..], Depth(s[0], depth));
    CutAfterUnit(s, n, p);
  }

  /** A unit and what follows it up to a comma or the end. */
  lemma {:induction false} CutAfterUnit(s: string, n: nat, p: string)
    requires s != "" && n == UnitLen(s) && |p| <= |s[n..]| && s[n..][..|p|] == p
    requires |p| < |s[n..]| ==> s[n..][|p|] == ','
    ensures var t := s[..n] + p; t != "" && UnitLen(t) == n && t[0] == s[0] && t[n..] == p
  {
    var more := s[n..][|p|..];
    assert s == s[..n] + p + more;
    UnitStays(s, p, more);
  }

  /** Read on its own, from the depth it starts at, a piece is one piece: it has no top-level comma. */
  lemma {:induction false} FirstPieceWhole(s: string, depth: nat)
    ensures Pieces(Pieces(s, depth)[0], depth) == [Pieces(s, depth)[0]]
    decreases |s|
  {
    if s != "" && !Splits(s[0], depth) {
      var n := UnitLen(s);
      var p := Pieces(s[n..], Depth(s[0], depth))[0];
      UnitStep(s, n, depth);
      FirstPieceWhole(s[n..], Depth(s[0], depth));
      FirstPieceCut(s, n, p, depth);
      UnitThenOne(s[..n] + p, n, p, depth);
    }
  }

  lemma {:induction false} NoCommaLeft(s: string, depth: nat, i: nat)
    requires i < |Pieces(s, depth)|
    ensures var p := Pieces(s, depth)[i]; Pieces(p, if i == 0 then depth else 0) == [p]
    decreases |s|
  {
    if i == 0 {
      FirstPieceWhole(s, depth);
    } else if Splits(s[0], depth) {
      NoCommaLeft(s[1..], 0, i - 1);
    } else {
      var n := UnitLen(s);
      UnitStep(s, n, depth);
      NoCommaLeft(s[n..], Depth(s[0], depth), i);
    }
  }

  // ---------------------------------------------------------------- trimming brings no comma out

  /** A text that is one piece, taken apart: so is what follows its first unit. */
  lemma {:induction false} OneThenUnit(s: string, n: nat, depth: nat)
    requires s != "" && Pieces(s, depth) == [s] && n == UnitLen(s)
    ensures !Splits(s[0], depth) && Pieces(s[n..], Depth(s[0], depth)) == [s[n..]]
  {
    var rest := Pieces(s[n..], Depth(s[0], depth));
    if !Splits(s[0], depth) {
      UnitStep(s, n, depth);
      assert |rest| == |Pieces(s, depth)| == 1;
      assert Pieces(s, depth)[0] == s[..n] + rest[0];
      assert (s[..n] + rest[0])[n..] == rest[0];
    }
  }

  /** A literal that loses a trailing blank ends where it did, or at the new end. */
  lemma {:induction false} QuotedLenCut(s: string, q: char)
    requires s != "" && s[|s| - 1] != q
    ensures QuotedLen(s[..|s| - 1], q) == Min(QuotedLen(s, q), |s| - 1)
  {
    var n := |s| - 1;
    var t := s[..n];
    if s[0] != q {
      if n > 0 {
        QuotedLenCut(s[1..], q);
        assert t[1..] == s[1..][..n - 1];
      }
    } else if s[1] == q {
      QuotedLenCut(s[2..], q);
      assert t[2..] == s[2..][..n - 2];
    }
  }

  lemma {:induction false} UnitLenCut(s: string)
    requires |s| > 1 && IsBlank(s[|s| - 1])
    ensures UnitLen(s[..|s| - 1]) == Min(UnitLen(s), |s| - 1)
  {
    var n := |s| - 1;
    if IsQuote(s[0]) {
      QuotedLenCut(s[1..], s[0]);
      assert s[..n][1..] == s[1..][..n - 1];
    }
  }

  lemma {:induction false} CutLastUnit(s: string, depth: nat)
    requires |s| > 1 && IsBlank(s[|s| - 1]) && UnitLen(s) == |s| && !Splits(s[0], depth)
    ensures Pieces(s[..|s| - 1], depth) == [s[..|s| - 1]]
  {
    var t := s[..|s| - 1];
    UnitLenCut(s);
    assert t[|t|..] == "";
    UnitThenOne(t, |t|, "", depth);
  }

  lemma {:induction false} CutLastLater(s: string, u: nat, depth: nat)
    requires |s| > 1 && IsBlank(s[|s| - 1]) && u == UnitLen(s) < |s| && !Splits(s[0], depth)
    requires Pieces(s[u..][..|s| - 1 - u], Depth(s[0], depth)) == [s[u..][..|s| - 1 - u]]
    ensures Pieces(s[..|s| - 1], depth) == [s[..|s| - 1]]
  {
    var t := s[..|s| - 1];
    UnitLenCut(s);
    assert t[u..] == s[u..][..|s| - 1 - u];
    UnitThenOne(t, u, t[u..], depth);
  }

  lemma {:induction false} CutLast(s: string, depth: nat)
    requires s != "" && IsBlank(s[|s| - 1]) && Pieces(s, depth) == [s]
    ensures Pieces(s[..|s| - 1], depth) == [s[..|s| - 1]]
    decreases |s|
  {
    var u := UnitLen(s);
    OneThenUnit(s, u, depth);
    if |s| > 1 && u == |s| {
      CutLastUnit(s, depth);
    } else if |s| > 1 {
      CutLast(s[u..], Depth(s[0], depth));
      CutLastLater(s, u, depth);
    }
  }

  lemma {:induction false} TrimRightWhole(s: string, depth: nat)
    requires Pieces(s, depth) == [s]
    ensures Pieces(TrimRight(s), depth) == [TrimRight(s)]
  {
    if s != "" && IsBlank(s[|s| - 1]) {
      CutLast(s, depth);
      TrimRightWhole(s[..|s| - 1], depth);
    }
  }

  lemma {:induction false} TrimLeftWhole(s: string, depth: nat)
    requires Pieces(s, depth) == [s]
    ensures Pieces(TrimLeft(s), depth) == [TrimLeft(s)]
  {
    if s != "" && IsBlank(s[0]) {
      OneThenUnit(s, 1, depth);
      TrimLeftWhole(s[1..], depth);
    }
  }

  /** Every chunk returned, read on its own, is one piece: it has no top-level comma. */
  lemma {:induction false} NoCommaInChunk(value: string, i: nat)
    requires i < |Chunks(Pieces(value, 0))|
    ensures var c := Chunks(Pieces(value, 0))[i]; Pieces(c, 0) == [c]
  {
    ChunkIs(Pieces(value, 0), i);
    NoCommaLeft(value, 0, i);
    TrimWhole(Pieces(value, 0)[i]);
  }

  lemma {:induction false} TrimWhole(p: string)
    requires Pieces(p, 0) == [p]
    ensures Pieces(Trim(p), 0) == [Trim(p)]
  {
    TrimLeftWhole(p, 0);
    TrimRightWhole(TrimLeft(p), 0);
  }

  lemma {:induction false} ChunkIs(pieces: seq<string>, i: nat)
    requires pieces != [] && i < |Chunks(pieces)|
    ensures i < |pieces| && Chunks(pieces)[i] == Trim(pieces[i])
  {
  }


  // ---------------------------------------------------------------- the splitting loop

  function TrimAll(pieces: seq<string>): seq<string> {
    seq(|pieces|, i requires 0 <= i < |pieces| => Trim(pieces[i]))
  }

  /** Every piece trimmed; a blank last piece is dropped, a blank one elsewhere is kept. */
  function Chunks(pieces: seq<string>): seq<string>
    requires pieces != []
  {
    var last := Trim(pieces[|pieces| - 1]);
    TrimAll(pieces[..|pieces| - 1]) + if last == "" then [] else [last]
  }

  /** The pieces still to come, given the literal one is in. */
  ghost function PiecesFrom(quote: Option<char>, s: string, depth: nat): (r: seq<string>)
    ensures r != []
  {
    if quote.None? then Pieces(s, depth)
    else Before(s[..QuotedLen(s, quote.value)], Pieces(s[QuotedLen(s, quote.value)..], depth))
  }

  lemma {:induction false} BeforeBefore(a: string, b: string, pieces: seq<string>)
    requires pieces != []
    ensures Before(a, Before(b, pieces)) == Before(a + b, pieces)
    ensures Before("", pieces) == pieces
  {
    assert a + (b + pieces[0]) == a + b + pieces[0];
    assert "" + pieces[0] == pieces[0];
  }

  /** A literal taken apart after its first k characters. */
  lemma {:induction false} CutBefore(s: string, k: nat, n: nat, left: seq<string>)
    requires k <= n <= |s| && left != []
    ensures Before(s[..n], left) == Before(s[..k], Before(s[k..][..n - k], left))
    ensures s[n..] == s[k..][n - k..]
  {
    BeforeBefore(s[..k], s[k..][..n - k], left);
    assert s[..n] == s[..k] + s[k..][..n - k];
  }

  lemma {:induction false} QuoteGoesOn(q: char, s: string, k: nat, n: nat, depth: nat)
    requires k <= n <= |s| && n == QuotedLen(s, q) && n - k == QuotedLen(s[k..], q)
    ensures PiecesFrom(Some(q), s, depth) == Before(s[..k], PiecesFrom(Some(q), s[k..], depth))
  {
    CutBefore(s, k, n, Pieces(s[n..], depth));
  }

  lemma {:induction false} QuoteCloses(q: char, s: string, depth: nat)
    requires s != "" && QuotedLen(s, q) == 1
    ensures PiecesFrom(Some(q), s, depth) == Before(s[..1], Pieces(s[1..], depth))
  {
  }

  lemma {:induction false} OpenStep(s: string, depth: nat)
    requires s != "" && IsQuote(s[0])
    ensures Pieces(s, depth) == Before(s[..1], PiecesFrom(Some(s[0]), s[1..], depth))
  {
    var n := UnitLen(s);
    UnitStep(s, n, depth);
    CutBefore(s, 1, n, Pieces(s[n..], depth));
  }

  // ---------------------------------------------------------------- in plain terms

  lemma {:induction false} OneUnit(unit: string, rest: string, depth: nat)
    requires unit != "" && UnitLen(unit + rest) == |unit| && !Splits(unit[0], depth)
    ensures Pieces(unit + rest, depth) == Before(unit, Pieces(rest, Depth(unit[0], depth)))
  {
    var s := unit + rest;
    assert s[..|unit|] == unit && s[|unit|..] == rest;
    UnitStep(s, |unit|, depth);
  }

  /** Outside parentheses a comma ends a piece. */
  lemma {:induction false} CommaSplits(rest: string)
    ensures Pieces("," + rest, 0) == [""] + Pieces(rest, 0)
  {
    assert ("," + rest)[1..] == rest;
  }

  /** A literal stays in its piece, commas and parentheses in it included. */
  lemma {:induction false} LiteralHolds(t: string, q: char, rest: string, depth: nat)
    requires q == '\'' || q == '"'
    requires rest != "" ==> rest[0] != q
    ensures Pieces([q] + Doubled(t, q) + [q] + rest, depth) == Before([q] + Doubled(t, q) + [q], Pieces(rest, depth))
  {
    var unit := [q] + Doubled(t, q) + [q];
    assert (unit + rest)[1..] == Doubled(t, q) + ([q] + rest);
    LiteralReads(t, q, [q] + rest);
    OneUnit(unit, rest, depth);
  }

  /** So does any other character; an opening parenthesis goes one deeper, a closing one back, at most to the top. */
  lemma {:induction false} OtherHolds(c: char, rest: string, depth: nat)
    requires c != '\'' && c != '"' && (c == ',' ==> depth > 0)
    ensures Pieces([c] + rest, depth)
         == Before([c], Pieces(rest, if c == '(' then depth + 1 else if c == ')' && depth > 0 then depth - 1 else depth))
  {
    OneUnit([c], rest, depth);
  }

  /** No quotes, and from k parentheses open all of them are closed at the end and none too many before. */
  predicate Nested(t: string, k: nat) {
    if t == "" then k == 0
    else if t[0] == '\'' || t[0] == '"' then false
    else if t[0] == '(' then Nested(t[1..], k + 1)
    else if t[0] == ')' then k > 0 && Nested(t[1..], k - 1)
    else Nested(t[1..], k)
  }

  lemma {:induction false} InFront(c: char, s: string, u: string, pieces: seq<string>, depth: nat, next: nat)
    requires c != '\'' && c != '"' && (c == ',' ==> depth > 0) && pieces != []
    requires next == if c == '(' then depth + 1 else if c == ')' && depth > 0 then depth - 1 else depth
    requires Pieces(s, next) == Before(u, pieces)
    ensures Pieces([c] + s, depth) == Before([c] + u, pieces)
  {
    OtherHolds(c, s, depth);
    BeforeBefore([c], u, pieces);
  }

  lemma {:induction false} Regroup(c: char, t: string, rest: string)
    ensures [c] + (t + ")" + rest) == [c] + t + ")" + rest && [c] + (t + ")") == [c] + t + ")"
  {
  }

  lemma {:induction false} NestedHolds(t: string, k: nat, rest: string, depth: nat)
    requires Nested(t, k)
    ensures Pieces(t + ")" + rest, depth + 1 + k) == Before(t + ")", Pieces(rest, depth))
  {
    if t == "" {
      OtherHolds(')', rest, depth + 1);
      assert t + ")" + rest == [')'] + rest && t + ")" == [')'];
    } else {
      var k' := if t[0] == '(' then k + 1 else if t[0] == ')' then k - 1 else k;
      NestedHolds(t[1..], k', rest, depth);
      InFront(t[0], t[1..] + ")" + rest, t[1..] + ")", Pieces(rest, depth), depth + 1 + k, depth + 1 + k');
      Regroup(t[0], t[1..], rest);
      assert [t[0]] + t[1..] == t;
    }
  }

  /** What stands in parentheses stays in one piece, whatever commas it holds. */
  lemma {:induction false} ParenthesesHold(t: string, rest: string, depth: nat)
    requires Nested(t, 0)
    ensures Pieces("(" + t + ")" + rest, depth) == Before("(" + t + ")", Pieces(rest, depth))
  {
    NestedHolds(t, 0, rest, depth);
    InFront('(', t + ")" + rest, t + ")", Pieces(rest, depth), depth, depth + 1);
    Regroup('(', t, rest);
  }

  /** The pieces returned: every one trimmed, and the last one left out if nothing of it remains. */
  lemma {:induction false} ChunksMeaning(pieces: seq<string>, i: nat)
    requires i < |pieces|
    ensures var blank := Trim(pieces[|pieces| - 1]) == "";
      && |Chunks(pieces)| == (if blank then |pieces| - 1 else |pieces|)
      && (i < |Chunks(pieces)| ==> Chunks(pieces)[i] == Trim(pieces[i]))
  {
  }

  // ---------------------------------------------------------------- one turn of the loop

  /** Where the loop goes on: the next character to look at, the literal it is in, and the depth. */
  datatype Scan = Scan(index: nat, quote: Option<char>, depth: nat)

  /** A turn that does not split: two characters when a quote is doubled inside a literal, one otherwise. */
  function Turn(value: string, at: Scan): (next: Scan)
    requires at.index < |value|
    ensures at.index < next.index <= |value|
  {
    var current := value[at.index];
    if at.quote.Some? then
      if current != at.quote.value then at.(index := at.index + 1)
      else if at.index + 1 < |value| && value[at.index + 1] == current then at.(index := at.index + 2)
      else at.(index := at.index + 1, quote := None)
    else if IsQuote(current) then at.(index := at.index + 1, quote := Some(current))
    else at.(index := at.index + 1, depth := Depth(current, at.depth))
  }

  /** The pieces still to come from where the loop is. */
  ghost function Left(value: string, at: Scan): (r: seq<string>)
    requires at.index <= |value|
    ensures r != []
  {
    PiecesFrom(at.quote, value[at.index..], at.depth)
  }

  lemma {:induction false} QuotedTurn(value: string, at: Scan)
    requires at.index < |value| && at.quote.Some?
    ensures Left(value, at) == Before(value[at.index..Turn(value, at).index], Left(value, Turn(value, at)))
  {
    var s, q := value[at.index..], at.quote.value;
    if s[0] == q && |s| > 1 && s[1] == q {
      assert s[2..] == value[at.index + 2..] && s[..2] == value[at.index..at.index + 2];
      QuoteGoesOn(q, s, 2, QuotedLen(s, q), at.depth);
    } else {
      assert s[1..] == value[at.index + 1..] && s[..1] == value[at.index..at.index + 1];
      if s[0] == q {
        QuoteCloses(q, s, at.depth);
      } else {
        QuoteGoesOn(q, s, 1, QuotedLen(s, q), at.depth);
      }
    }
  }

  lemma {:induction false} PlainTurn(value: string, at: Scan)
    requires at.index < |value| && at.quote.None? && !Splits(value[at.index], at.depth)
    ensures Left(value, at) == Before(value[at.index..Turn(value, at).index], Left(value, Turn(value, at)))
  {
    var s := value[at.index..];
    assert s[1..] == value[at.index + 1..] && s[..1] == value[at.index..at.index + 1];
    if IsQuote(s[0]) {
      OpenStep(s, at.depth);
    } else {
      UnitStep(s, 1, at.depth);
    }
  }

  // ---------------------------------------------------------------- the loop

  function WithTail(chunks: seq<string>, tail: string): seq<string> {
    if tail == "" then chunks else chunks + [tail]
  }

  /** The loop, as a function of the chunks cut so far and where it is; `start` is where the current piece began. */
  ghost function Loop(value: string, chunks: seq<string>, start: nat, at: Scan): seq<string>
    requires start <= at.index <= |value|
    decreases |value| - at.index
  {
    if at.index == |value| then WithTail(chunks, Trim(value[start..]))
    else if at.quote.None? && Splits(value[at.index], at.depth)
    then Loop(value, chunks + [Trim(value[start..at.index])], at.index + 1, at.(index := at.index + 1))
    else Loop(value, chunks, start, Turn(value, at))
  }

  lemma {:induction false} TrimAllCons(piece: string, more: seq<string>)
    ensures TrimAll([piece] + more) == [Trim(piece)] + TrimAll(more)
  {
  }

  lemma {:induction false} ChunksCons(piece: string, more: seq<string>)
    requires more != []
    ensures Chunks([piece] + more) == [Trim(piece)] + Chunks(more)
  {
    var all := [piece] + more;
    assert all[..|all| - 1] == [piece] + more[..|more| - 1];
    TrimAllCons(piece, more[..|more| - 1]);
  }

  lemma {:induction false} ChunksSplit(chunks: seq<string>, piece: string, more: seq<string>)
    requires more != []
    ensures chunks + Chunks(Before(piece, [""] + more)) == (chunks + [Trim(piece)]) + Chunks(Before("", more))
  {
    var none: seq<string> := [""];
    assert piece + "" == piece && (none + more)[1..] == more;
    assert Before(piece, none + more) == [piece] + more;
    BeforeBefore("", "", more);
    ChunksCons(piece, more);
  }

  lemma {:induction false} ChunksLast(chunks: seq<string>, piece: string, quote: Option<char>, depth: nat)
    ensures WithTail(chunks, Trim(piece)) == chunks + Chunks(Before(piece, PiecesFrom(quote, "", depth)))
  {
    var none: seq<string> := [""];
    assert ""[..0] == "" && ""[0..] == "" && Pieces("", depth) == none;
    BeforeBefore("", "", none);
    assert none[1..] == [] && piece + "" == piece;
    assert Before(piece, none) == [piece];
    assert [piece][..0] == [];
  }

  lemma {:induction false} GrowPiece(value: string, start: nat, index: nat, next: nat, left: seq<string>)
    requires start <= index <= next <= |value| && left != []
    ensures Before(value[start..index], Before(value[index..next], left)) == Before(value[start..next], left)
  {
    BeforeBefore(value[start..index], value[index..next], left);
    assert value[start..index] + value[index..next] == value[start..next];
  }

  /** The loop cuts the current piece and what is left, after the chunks it has. */
  lemma {:induction false} LoopIs(value: string, chunks: seq<string>, start: nat, at: Scan)
    requires start <= at.index <= |value|
    ensures Loop(value, chunks, start, at) == chunks + Chunks(Before(value[start..at.index], Left(value, at)))
    decreases |value| - at.index
  {
    if at.index == |value| {
      assert value[at.index..] == "" && value[start..at.index] == value[start..];
      ChunksLast(chunks, value[start..], at.quote, at.depth);
    } else if at.quote.None? && Splits(value[at.index], at.depth) {
      LoopSplits(value, chunks, start, at);
      LoopIs(value, chunks + [Trim(value[start..at.index])], at.index + 1, at.(index := at.index + 1));
    } else {
      var next := Turn(value, at);
      LoopIs(value, chunks, start, next);
      LoopTurns(value, start, at);
    }
  }

  lemma {:induction false} LoopTurns(value: string, start: nat, at: Scan)
    requires start <= at.index < |value| && (at.quote.None? ==> !Splits(value[at.index], at.depth))
    ensures var next := Turn(value, at);
      Before(value[start..at.index], Left(value, at)) == Before(value[start..next.index], Left(value, next))
  {
    var next := Turn(value, at);
    if at.quote.Some? {
      QuotedTurn(value, at);
    } else {
      PlainTurn(value, at);
    }
    GrowPiece(value, start, at.index, next.index, Left(value, next));
  }

  lemma {:induction false} LoopSplits(value: string, chunks: seq<string>, start: nat, at: Scan)
    requires start <= at.index < |value| && at.quote.None? && Splits(value[at.index], at.depth)
    ensures var piece, next := value[start..at.index], at.(index := at.index + 1);
      chunks + Chunks(Before(piece, Left(value, at)))
      == (chunks + [Trim(piece)]) + Chunks(Before(value[next.index..next.index], Left(value, next)))
  {
    var s := value[at.index..];
    assert s[1..] == value[at.index + 1..];
    ChunksSplit(chunks, value[start..at.index], Pieces(s[1..], 0));
    assert value[at.index + 1..at.index + 1] == "";
  }

  lemma {:induction false} LoopFromStart(value: string)
    ensures Loop(value, [], 0, Scan(0, None, 0)) == Chunks(Pieces(value, 0))
  {
    LoopIs(value, [], 0, Scan(0, None, 0));
    assert value[0..] == value && value[0..0] == "";
    BeforeBefore("", "", Pieces(value, 0));
    assert [] + Chunks(Pieces(value, 0)) == Chunks(Pieces(value, 0));
  }

  method SplitTopLevelCommaSeparated(value: string) returns (chunks: seq<string>)
    ensures chunks == Chunks(Pieces(value, 0))
    ensures forall i | 0 <= i < |chunks| :: Pieces(chunks[i], 0) == [chunks[i]]
  {
    chunks := CutAtCommas(value);
    LoopFromStart(value);
    forall i | 0 <= i < |chunks| ensures Pieces(chunks[i], 0) == [chunks[i]] {
      NoCommaInChunk(value, i);
    }
  }

  method CutAtCommas(value: string) returns (chunks: seq<string>)
    ensures chunks == Loop(value, [], 0, Scan(0, None, 0))
  {
    chunks := [];
    var start: nat, at := 0, Scan(0, None, 0);
    while at.index < |value|
      invariant start <= at.index <= |value|
      invariant Loop(value, chunks, start, at) == Loop(value, [], 0, Scan(0, None, 0))
      decreases |value| - at.index
    {
      if at.quote.None? && Splits(value[at.index], at.depth) {
        chunks := chunks + [Trim(value[start..at.index])];
        start, at := at.index + 1, at.(index := at.index + 1);
      } else {
        at := Turn(value, at);
      }
    }
    var tail := Trim(value[start..]);
    if tail != "" {
      chunks := chunks + [tail];
    }
  }
}
