/** Decimal numerals as the program prints and reads them. */
module Decimal {

  predicate IsDigit(c: char) { '0' <= c <= '9' }

  predicate AllDigits(s: string) { forall i | 0 <= i < |s| :: IsDigit(s[i]) }

  function DigitChar(d: nat): (c: char)
    requires d < 10
    ensures IsDigit(c) && c as int - '0' as int == d
  {
    ('0' as int + d) as char
  }

  /** A number in decimal, without leading zeros. */
  function Digits(n: nat): (s: string)
    ensures |s| > 0 && AllDigits(s)
  {
    if n < 10 then [DigitChar(n)] else Digits(n / 10) + [DigitChar(n % 10)]
  }

  function NumberIn(s: string): nat
    requires AllDigits(s)
  {
    if s == "" then 0
    else 10 * NumberIn(s[..|s| - 1]) + (s[|s| - 1] as int - '0' as int)
  }

  function Zeros(n: nat): (s: string)
    ensures |s| == n && AllDigits(s)
  {
    if n == 0 then "" else Zeros(n - 1) + "0"
  }

  /** padStart(width, '0') */
  function Pad(s: string, width: int): (r: string)
    requires AllDigits(s)
    ensures AllDigits(r)
    ensures |r| == if width > |s| then width else |s|
  {
    if width > |s| then Zeros(width - |s|) + s else s
  }

  lemma {:induction false} ValueDigits(n: nat)
    ensures NumberIn(Digits(n)) == n
  {
    if n >= 10 {
      ValueDigits(n / 10);
      var s := Digits(n);
      assert s[..|s| - 1] == Digits(n / 10);
    } else {
      assert Digits(n)[..0] == "";
    }
  }

  /** No leading zeros. */
  lemma {:induction false} DigitsStart(n: nat)
    ensures Digits(n)[0] == '0' <==> n == 0
  {
    if n >= 10 { DigitsStart(n / 10); }
  }

  lemma {:induction false} ValueZeros(k: nat, s: string)
    requires AllDigits(s)
    ensures AllDigits(Zeros(k) + s) && NumberIn(Zeros(k) + s) == NumberIn(s)
  {
    var all := Zeros(k) + s;
    assert AllDigits(all);
    if s != "" {
      assert all[..|all| - 1] == Zeros(k) + s[..|s| - 1];
      ValueZeros(k, s[..|s| - 1]);
    } else {
      assert all == Zeros(k);
      if k > 0 {
        assert all[..k - 1] == Zeros(k - 1) == Zeros(k - 1) + "";
        ValueZeros(k - 1, "");
      }
    }
  }

  /** Padding, to whatever width, never changes the number that is read back. */
  lemma {:induction false} PadReadsBack(n: nat, width: int)
    ensures NumberIn(Pad(Digits(n), width)) == n
  {
    ValueDigits(n);
    if width > |Digits(n)| {
      ValueZeros(width - |Digits(n)|, Digits(n));
    }
  }
}
