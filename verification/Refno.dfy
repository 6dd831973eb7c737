/** The reference number printed on a document (src/common/Sequence/voucher-sequence.helper.ts). */
module Refno {
  import opened Prelude
  import opened Decimal
  import Numbering

  const REFNO_MAX_LENGTH := 100

  function Render(prefix: string, lastNo: nat, width: int, suffix: string): string {
    prefix + Pad(Digits(lastNo), Max(width, |Digits(lastNo)|)) + suffix
  }

  /** Prefix and suffix are taken as already trimmed. */
  function BuildRefno(prefix: string, lastNo: nat, width: int, suffix: string): Result<string, string> {
    var refno := Render(prefix, lastNo, width, suffix);
    if |refno| > REFNO_MAX_LENGTH then Err(refno) else Ok(refno)
  }

  /** Prefix, counter, suffix; the counter padded with zeros to the width and never cut; 100 characters at most. */
  lemma {:induction false} RefnoMeaning(prefix: string, lastNo: nat, width: int, suffix: string) returns (digits: string)
    ensures AllDigits(digits) && NumberIn(digits) == lastNo && |digits| >= width
    ensures |digits| > width ==> digits == Digits(lastNo)
    ensures var refno := prefix + digits + suffix;
      BuildRefno(prefix, lastNo, width, suffix) == if |refno| <= 100 then Ok(refno) else Err(refno)
  {
    var n := Digits(lastNo);
    digits := Pad(n, Max(width, |n|));
    PadReadsBack(lastNo, Max(width, |n|));
  }

  /** The counter can be read back from the printed number by whoever knows the prefix and suffix. */
  function ReadRefno(refno: string, prefix: nat, suffix: nat): Option<nat> {
    if prefix + suffix <= |refno| && AllDigits(refno[prefix..|refno| - suffix])
    then Some(NumberIn(refno[prefix..|refno| - suffix])) else None
  }

  lemma {:induction false} RefnoReadsBack(prefix: string, lastNo: nat, width: int, suffix: string)
    ensures ReadRefno(Render(prefix, lastNo, width, suffix), |prefix|, |suffix|) == Some(lastNo)
  {
    var body := Pad(Digits(lastNo), Max(width, |Digits(lastNo)|));
    var refno := Render(prefix, lastNo, width, suffix);
    assert refno[|prefix|..|refno| - |suffix|] == body;
    PadReadsBack(lastNo, Max(width, |Digits(lastNo)|));
  }

  /**
   Two equal reference numbers of one prefix and suffix carry equal counters, even when the width was
   changed in between or a counter outgrew it; and the number is refused exactly when it is too long.
   */
  lemma {:induction false} RefnoInjective(prefix: string, suffix: string, a: nat, width: int, b: nat, width': int)
    ensures BuildRefno(prefix, a, width, suffix).Ok? && BuildRefno(prefix, a, width, suffix) == BuildRefno(prefix, b, width', suffix)
      ==> a == b
    ensures BuildRefno(prefix, a, width, suffix).Err?
      <==> |prefix| + Max(width, |Digits(a)|) + |suffix| > REFNO_MAX_LENGTH
  {
    RefnoReadsBack(prefix, a, width, suffix);
    RefnoReadsBack(prefix, b, width', suffix);
  }

  /**
   Under any interleaving with aborts no reference number is printed twice in a scope, whatever widths the
   format had when the two were drawn.
   */
  lemma {:induction false} RefnosDistinct(
    states: seq<Numbering.System>, events: seq<Numbering.Event>, hash: Numbering.Scope -> int, scope: Numbering.Scope,
    prefix: string, suffix: string, i: nat, width: int, j: nat, width': int)
    requires Numbering.IsRun(states, events, hash)
    requires i < j < |Numbering.Values(states[|events|].db.issued, scope)|
    ensures var issued := Numbering.Values(states[|events|].db.issued, scope);
      Render(prefix, issued[i], width, suffix) != Render(prefix, issued[j], width', suffix)
  {
    var issued := Numbering.Values(states[|events|].db.issued, scope);
    Numbering.NumbersDistinct(states, events, hash, scope, i, j);
    RefnoReadsBack(prefix, issued[i], width, suffix);
    RefnoReadsBack(prefix, issued[j], width', suffix);
  }
}
