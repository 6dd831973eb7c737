/** Trimming, over the blanks and line ends of the ECMAScript standard. */
module Texts {

  /** U+2028 and U+2029 end a line as '\n' and '\r' do. */
  predicate IsLineEnd(c: char) { c == '\n' || c == '\r' || c == '\U{2028}' || c == '\U{2029}' }

  predicate IsBlank(c: char) {
    || c == ' ' || '\t' <= c <= '\r' || IsLineEnd(c)
    || c == '\U{00A0}' || c == '\U{FEFF}'
    || c == '\U{1680}' || '\U{2000}' <= c <= '\U{200A}' || c == '\U{202F}' || c == '\U{205F}' || c == '\U{3000}'
  }

  function TrimLeft(s: string): string { if s != "" && IsBlank(s[0]) then TrimLeft(s[1..]) else s }

  function TrimRight(s: string): string {
    if s != "" && IsBlank(s[|s| - 1]) then TrimRight(s[..|s| - 1]) else s
  }

  function Trim(s: string): string { TrimRight(TrimLeft(s)) }

  /** The white space and line terminators of the standard, one by one. */
  const BLANKS := "\t\n\U{B}\U{C}\r \U{A0}\U{1680}\U{2000}\U{2001}\U{2002}\U{2003}\U{2004}\U{2005}\U{2006}\U{2007}\U{2008}\U{2009}\U{200A}\U{2028}\U{2029}\U{202F}\U{205F}\U{3000}\U{FEFF}"

  lemma {:induction false} BlanksAre(c: char)
    ensures IsBlank(c) <==> c in BLANKS
    ensures IsLineEnd(c) <==> c in "\n\r\U{2028}\U{2029}"
  {
    BlankByCode(c);
  }

  lemma {:induction false} BlankByCode(c: char)
    ensures c in BLANKS <==> c as int in [9, 10, 11, 12, 13, 32, 160, 5760, 8192, 8193, 8194, 8195, 8196, 8197, 8198,
                                          8199, 8200, 8201, 8202, 8232, 8233, 8239, 8287, 12288, 65279]
  {
  }

  ghost predicate AllBlank(s: string) { forall i | 0 <= i < |s| :: IsBlank(s[i]) }

  /** Trimming takes blanks off both ends, and all of them. */
  lemma {:induction false} TrimMeaning(s: string) returns (left: string, right: string)
    ensures s == left + Trim(s) + right && AllBlank(left) && AllBlank(right)
    ensures Trim(s) != "" ==> !IsBlank(Trim(s)[0]) && !IsBlank(Trim(s)[|Trim(s)| - 1])
  {
    left := LeftMeaning(s);
    right := RightMeaning(TrimLeft(s));
    assert s == left + (Trim(s) + right);
    assert Trim(s) != "" ==> Trim(s)[0] == TrimLeft(s)[0];
  }

  lemma {:induction false} LeftMeaning(s: string) returns (left: string)
    ensures s == left + TrimLeft(s) && AllBlank(left)
    ensures TrimLeft(s) != "" ==> !IsBlank(TrimLeft(s)[0])
  {
    left := "";
    if s != "" && IsBlank(s[0]) {
      left := LeftMeaning(s[1..]);
      left := [s[0]] + left;
    }
  }

  lemma {:induction false} RightMeaning(s: string) returns (right: string)
    ensures s == TrimRight(s) + right && AllBlank(right)
    ensures TrimRight(s) != "" ==> !IsBlank(TrimRight(s)[|TrimRight(s)| - 1])
  {
    right := "";
    if s != "" && IsBlank(s[|s| - 1]) {
      right := RightMeaning(s[..|s| - 1]);
      right := right + [s[|s| - 1]];
    }
  }
}
