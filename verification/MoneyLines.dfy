/**
 Every line on a CASH or BANK ledger carries a tender (src/common/posting/money-lines.ts).  What the
 voucher's tender rows leave uncovered, per ledger and side, the server labels itself or reports.
 Amounts are whole paise.
 */
module MoneyLines {
  import opened Prelude

  datatype Key = Key(ledger: nat, side: Side)

  /** A leg whose ledger is not known takes no part. */
  datatype Leg = Leg(ledger: Option<nat>, side: Side, amount: nat)

  /** `server` marks the source document type the server's own rows carry. */
  datatype TenderRow = TenderRow(
    voucher: Option<nat>, srcDoc: Option<nat>, server: bool, rowNo: nat, inPlaceOf: Option<nat>,
    ledger: nat, settle: Option<nat>, side: Side, amount: int, tender: nat, party: nat, deleted: bool)

  /** `voided` is the ledger, side and amount of the row a re-tender voided, when it exists. */
  datatype Scope = Scope(
    voucher: nat, srcDoc: Option<nat>, retender: bool, voided: Option<(Key, int)>, party: Option<nat>, sales: bool)

  datatype Gap = Gap(key: Key, amount: int)

  /** `isMoney` and `pick` stand for the ledger and tender masters. */
  datatype Call = Call(scope: Scope, legs: seq<Leg>, isMoney: nat -> bool, pick: Key -> Option<nat>)

  // ---------------------------------------------------------------- what is needed and what covers it

  predicate Counts(l: Leg, k: Key) { l.ledger == Some(k.ledger) && l.side == k.side }

  function Need(legs: seq<Leg>, k: Key): nat {
    if legs == [] then 0
    else
      var l := legs[|legs| - 1];
      Need(legs[..|legs| - 1], k) + if Counts(l, k) then l.amount else 0
  }

  /** The ledgers and sides with an amount, in the order they first appear. */
  function Keys(legs: seq<Leg>): seq<Key> {
    if legs == [] then []
    else
      var before, l := Keys(legs[..|legs| - 1]), legs[|legs| - 1];
      if l.ledger.None? || l.amount == 0 || Key(l.ledger.value, l.side) in before then before
      else before + [Key(l.ledger.value, l.side)]
  }

  /** The voucher's rows; what replaced the voided row; the document's rows no other voucher claims. */
  predicate Covers(r: TenderRow, s: Scope) {
    && !r.deleted
    && (|| r.voucher == Some(s.voucher)
        || r.srcDoc == Some(s.voucher)
        || (s.srcDoc.Some? && if s.retender then r.inPlaceOf == s.srcDoc else r.srcDoc == s.srcDoc && r.voucher.None?))
  }

  /** A row covers the ledger it names and the ledger it settles to. */
  predicate CoversKey(r: TenderRow, s: Scope, k: Key) {
    Covers(r, s) && r.side == k.side && (r.ledger == k.ledger || r.settle == Some(k.ledger))
  }

  function RowsCover(rows: seq<TenderRow>, s: Scope, k: Key): int {
    if rows == [] then 0
    else
      var r := rows[|rows| - 1];
      RowsCover(rows[..|rows| - 1], s, k) + if CoversKey(r, s, k) then r.amount else 0
  }

  /** A re-tender's contra credits back the row it voided. */
  function VoidedCover(s: Scope, k: Key): int {
    if s.retender && s.srcDoc.Some? && s.voided.Some?
       && s.voided.value.0 == Key(k.ledger, k.side.Other()) then s.voided.value.1 else 0
  }

  function Covered(rows: seq<TenderRow>, s: Scope, k: Key): int { RowsCover(rows, s, k) + VoidedCover(s, k) }

  function Short(rows: seq<TenderRow>, c: Call, k: Key): int { Need(c.legs, k) - Covered(rows, c.scope, k) }

  // ---------------------------------------------------------------- the rows the server adds

  predicate Lacks(rows: seq<TenderRow>, c: Call, k: Key) { c.isMoney(k.ledger) && Short(rows, c, k) > 0 }

  function HighestRowNo(rows: seq<TenderRow>, voucher: nat): nat {
    if rows == [] then 0
    else
      var r, before := rows[|rows| - 1], HighestRowNo(rows[..|rows| - 1], voucher);
      if r.srcDoc == Some(voucher) && r.server && r.rowNo > before then r.rowNo else before
  }

  predicate Opposite(l: Leg, k: Key) { l.side != k.side && l.ledger.Some? && l.ledger != Some(k.ledger) }

  /** Who the money went to: the party, else the ledger of the first biggest leg on the other side. */
  function Biggest(legs: seq<Leg>, k: Key): Option<Leg> {
    if legs == [] then None
    else
      var best, l := Biggest(legs[..|legs| - 1], k), legs[|legs| - 1];
      if Opposite(l, k) && (best.None? || l.amount > best.value.amount) then Some(l) else best
  }

  function Counterpart(c: Call, k: Key): nat {
    if c.scope.party.Some? then c.scope.party.value
    else
      var best := Biggest(c.legs, k);
      if best.Some? && best.value.ledger.Some? then best.value.ledger.value else k.ledger
  }

  function Label(c: Call, k: Key, tender: nat, amount: int, rowNo: nat): TenderRow {
    TenderRow(Some(c.scope.voucher), Some(c.scope.voucher), true, rowNo, None, k.ledger, None, k.side, amount,
              tender, Counterpart(c, k), false)
  }

  function Labels(rows: seq<TenderRow>, c: Call, keys: seq<Key>, rowNo: nat): seq<TenderRow> {
    if keys == [] then []
    else
      var before, k := Labels(rows, c, keys[..|keys| - 1], rowNo), keys[|keys| - 1];
      if Lacks(rows, c, k) && c.pick(k).Some?
      then before + [Label(c, k, c.pick(k).value, Short(rows, c, k), rowNo + |before|)] else before
  }

  function Gaps(rows: seq<TenderRow>, c: Call, keys: seq<Key>): seq<Gap> {
    if keys == [] then []
    else
      var before, k := Gaps(rows, c, keys[..|keys| - 1]), keys[|keys| - 1];
      if Lacks(rows, c, k) && c.pick(k).None? then before + [Gap(k, Short(rows, c, k))] else before
  }

  function Cover(rows: seq<TenderRow>, c: Call): seq<TenderRow> {
    rows + Labels(rows, c, Keys(c.legs), HighestRowNo(rows, c.scope.voucher) + 1)
  }

  /** Refused over a gap, except on a sales document, where gaps are only reported. */
  predicate Refused(rows: seq<TenderRow>, c: Call) { !c.scope.sales && Gaps(rows, c, Keys(c.legs)) != [] }

  /** What the caller is told: how many rows were written and the gaps, or the gaps as a refusal. */
  function Covering(rows: seq<TenderRow>, c: Call): Result<(nat, seq<Gap>), seq<Gap>> {
    var gaps := Gaps(rows, c, Keys(c.legs));
    if Refused(rows, c) then Err(gaps) else Ok((|Cover(rows, c)| - |rows|, gaps))
  }

  predicate OfServer(r: TenderRow, voucher: nat) { r.voucher == Some(voucher) && r.server }

  function Retire(rows: seq<TenderRow>, voucher: nat): seq<TenderRow> {
    if rows == [] then []
    else
      var r := rows[|rows| - 1];
      Retire(rows[..|rows| - 1], voucher) + [if OfServer(r, voucher) then r.(deleted := true) else r]
  }

  // ---------------------------------------------------------------- keys

  predicate Distinct(keys: seq<Key>) { forall i, j | 0 <= i < j < |keys| :: keys[i] != keys[j] }

  lemma {:induction false} KeysMeaning(legs: seq<Leg>)
    ensures Distinct(Keys(legs))
    ensures forall k :: k in Keys(legs) <==> Need(legs, k) > 0
  {
    if legs != [] {
      KeysMeaning(legs[..|legs| - 1]);
    }
  }

  // ---------------------------------------------------------------- the rows added are exactly the shortfall

  lemma {:induction false} RowsCoverAppend(a: seq<TenderRow>, b: seq<TenderRow>, s: Scope, k: Key)
    ensures RowsCover(a + b, s, k) == RowsCover(a, s, k) + RowsCover(b, s, k)
  {
    if b == [] {
      assert a + b == a;
    } else {
      var n := |b| - 1;
      assert (a + b)[..|a + b| - 1] == a + b[..n];
      RowsCoverAppend(a, b[..n], s, k);
    }
  }

  lemma {:induction false} LabelsCover(rows: seq<TenderRow>, c: Call, keys: seq<Key>, rowNo: nat, k: Key)
    requires Distinct(keys)
    ensures RowsCover(Labels(rows, c, keys, rowNo), c.scope, k)
         == if k in keys && Lacks(rows, c, k) && c.pick(k).Some? then Short(rows, c, k) else 0
  {
    if keys != [] {
      var n := |keys| - 1;
      LabelsCover(rows, c, keys[..n], rowNo, k);
      assert k in keys <==> k in keys[..n] || k == keys[n];
      assert k == keys[n] ==> k !in keys[..n];
      var before := Labels(rows, c, keys[..n], rowNo);
      var added := Label(c, keys[n], if c.pick(keys[n]).Some? then c.pick(keys[n]).value else 0, Short(rows, c, keys[n]), rowNo + |before|);
      assert (before + [added])[..|before|] == before;
    }
  }

  /** On every ledger and side, what is added is the shortfall and no more. */
  lemma {:induction false} AddsExactlyTheShortfall(rows: seq<TenderRow>, c: Call, k: Key)
    ensures Covered(Cover(rows, c), c.scope, k) - Covered(rows, c.scope, k)
         == if k in Keys(c.legs) && Lacks(rows, c, k) && c.pick(k).Some? then Short(rows, c, k) else 0
  {
    KeysMeaning(c.legs);
    var rowNo := HighestRowNo(rows, c.scope.voucher) + 1;
    LabelsCover(rows, c, Keys(c.legs), rowNo, k);
    RowsCoverAppend(rows, Labels(rows, c, Keys(c.legs), rowNo), c.scope, k);
  }

  lemma {:induction false} GapsMeaning(rows: seq<TenderRow>, c: Call, keys: seq<Key>)
    ensures forall k, amount ::
      (Gap(k, amount) in Gaps(rows, c, keys)
       <==> k in keys && Lacks(rows, c, k) && c.pick(k).None? && amount == Short(rows, c, k))
  {
    if keys != [] {
      GapsMeaning(rows, c, keys[..|keys| - 1]);
      assert keys == keys[..|keys| - 1] + [keys[|keys| - 1]];
    }
  }

  /**
   On every money ledger and side with a leg, the rows reach the legs' total afterwards if and only if no
   gap was reported there; and then they reach it exactly, unless they were beyond it before.
   */
  lemma {:induction false} CoveredIffNoGap(rows: seq<TenderRow>, c: Call, k: Key)
    requires c.isMoney(k.ledger) && k in Keys(c.legs)
    ensures Covered(Cover(rows, c), c.scope, k) >= Need(c.legs, k)
      <==> !exists amount :: Gap(k, amount) in Gaps(rows, c, Keys(c.legs))
    ensures c.pick(k).Some? ==>
      Covered(Cover(rows, c), c.scope, k) == Max(Need(c.legs, k), Covered(rows, c.scope, k))
  {
    AddsExactlyTheShortfall(rows, c, k);
    GapsMeaning(rows, c, Keys(c.legs));
    assert Lacks(rows, c, k) && c.pick(k).None? <==> Gap(k, Short(rows, c, k)) in Gaps(rows, c, Keys(c.legs));
  }

  /** An accepted voucher that is not a sale has every money line covered. */
  lemma {:induction false} AcceptedIsCovered(rows: seq<TenderRow>, c: Call, k: Key)
    requires !c.scope.sales && !Refused(rows, c) && c.isMoney(k.ledger) && Need(c.legs, k) > 0
    ensures Covered(Cover(rows, c), c.scope, k) >= Need(c.legs, k)
  {
    KeysMeaning(c.legs);
    CoveredIffNoGap(rows, c, k);
  }

  // ---------------------------------------------------------------- a second call adds nothing

  lemma {:induction false} NothingToLabel(rows: seq<TenderRow>, c: Call, keys: seq<Key>, rowNo: nat)
    requires forall k | k in keys :: !(Lacks(rows, c, k) && c.pick(k).Some?)
    ensures Labels(rows, c, keys, rowNo) == []
  {
    if keys != [] {
      assert keys[|keys| - 1] in keys;
      NothingToLabel(rows, c, keys[..|keys| - 1], rowNo);
    }
  }

  lemma {:induction false} SameGaps(rows: seq<TenderRow>, rows': seq<TenderRow>, c: Call, keys: seq<Key>)
    requires forall k | k in keys && c.pick(k).None? :: Short(rows', c, k) == Short(rows, c, k)
    ensures Gaps(rows', c, keys) == Gaps(rows, c, keys)
  {
    if keys != [] {
      assert keys[|keys| - 1] in keys;
      SameGaps(rows, rows', c, keys[..|keys| - 1]);
    }
  }

  lemma {:induction false} SecondCallAddsNothing(rows: seq<TenderRow>, c: Call)
    ensures Cover(Cover(rows, c), c) == Cover(rows, c)
    ensures Gaps(Cover(rows, c), c, Keys(c.legs)) == Gaps(rows, c, Keys(c.legs))
  {
    var rows' := Cover(rows, c);
    forall k | k in Keys(c.legs)
      ensures !(Lacks(rows', c, k) && c.pick(k).Some?)
      ensures c.pick(k).None? ==> Short(rows', c, k) == Short(rows, c, k)
    {
      AddsExactlyTheShortfall(rows, c, k);
    }
    NothingToLabel(rows', c, Keys(c.legs), HighestRowNo(rows', c.scope.voucher) + 1);
    SameGaps(rows, rows', c, Keys(c.legs));
  }

  // ---------------------------------------------------------------- an amend judges the new legs afresh

  /** Everything but the rows the server wrote for this voucher. */
  function Others(rows: seq<TenderRow>, voucher: nat): seq<TenderRow> {
    if rows == [] then []
    else
      var before, r := Others(rows[..|rows| - 1], voucher), rows[|rows| - 1];
      if OfServer(r, voucher) then before else before + [r]
  }

  /** The server's standing rows for this voucher, without their row numbers. */
  function ServerRows(rows: seq<TenderRow>, voucher: nat): seq<TenderRow> {
    if rows == [] then []
    else
      var before, r := ServerRows(rows[..|rows| - 1], voucher), rows[|rows| - 1];
      if OfServer(r, voucher) && !r.deleted then before + [r.(rowNo := 0)] else before
  }

  /** One for each live row of the server's that the voucher claims, whole but for the number; and no other. */
  lemma {:induction false} ServerRowsMeaning(rows: seq<TenderRow>, r: TenderRow, voucher: nat)
    ensures ServerRows(rows + [r], voucher)
         == ServerRows(rows, voucher)
            + if r.server && r.voucher == Some(voucher) && r.deleted == false
              then [TenderRow(r.voucher, r.srcDoc, true, 0, r.inPlaceOf, r.ledger, r.settle, r.side, r.amount, r.tender, r.party, false)]
              else []
  {
    assert (rows + [r])[..|rows|] == rows;
  }

  lemma {:induction false} RetiredCover(rows: seq<TenderRow>, s: Scope, k: Key)
    ensures RowsCover(Retire(rows, s.voucher), s, k) == RowsCover(Others(rows, s.voucher), s, k)
    ensures ServerRows(Retire(rows, s.voucher), s.voucher) == []
  {
    if rows != [] {
      var n := |rows| - 1;
      RetiredCover(rows[..n], s, k);
      var retired, others := Retire(rows[..n], s.voucher), Others(rows[..n], s.voucher);
      var r := if OfServer(rows[n], s.voucher) then rows[n].(deleted := true) else rows[n];
      assert (retired + [r])[..|retired|] == retired;
      assert (others + [r])[..|others|] == others;
    }
  }

  lemma {:induction false} ServerRowsAppend(a: seq<TenderRow>, b: seq<TenderRow>, voucher: nat)
    ensures ServerRows(a + b, voucher) == ServerRows(a, voucher) + ServerRows(b, voucher)
  {
    if b == [] {
      assert a + b == a;
    } else {
      var n := |b| - 1;
      assert (a + b)[..|a + b| - 1] == a + b[..n];
      ServerRowsAppend(a, b[..n], voucher);
    }
  }

  /** Labels depend on the other rows only through the shortfalls, and on the numbering only in their numbers. */
  lemma {:induction false} LabelsAgree(a: seq<TenderRow>, b: seq<TenderRow>, c: Call, keys: seq<Key>, m: nat, n: nat)
    requires forall k | k in keys :: Short(a, c, k) == Short(b, c, k)
    ensures ServerRows(Labels(a, c, keys, m), c.scope.voucher) == ServerRows(Labels(b, c, keys, n), c.scope.voucher)
  {
    if keys != [] {
      var last := |keys| - 1;
      var k := keys[last];
      assert k in keys;
      LabelsAgree(a, b, c, keys[..last], m, n);
      var x, y := Labels(a, c, keys[..last], m), Labels(b, c, keys[..last], n);
      if Lacks(a, c, k) && c.pick(k).Some? {
        var lx := Label(c, k, c.pick(k).value, Short(a, c, k), m + |x|);
        var ly := Label(c, k, c.pick(k).value, Short(b, c, k), n + |y|);
        assert (x + [lx])[..|x|] == x && (y + [ly])[..|y|] == y;
      }
    }
  }

  /**
   After an amend the server's standing rows are those of a voucher that never had other legs: whatever
   the earlier history, they depend on the new legs and the rows the server did not write.
   */
  lemma {:induction false} AmendForgetsHistory(rows: seq<TenderRow>, c: Call)
    ensures var v := c.scope.voucher;
      ServerRows(Cover(Retire(rows, v), c), v) == ServerRows(Cover(Others(rows, v), c), v)
  {
    var v := c.scope.voucher;
    var a, b := Retire(rows, v), Others(rows, v);
    forall k ensures Short(a, c, k) == Short(b, c, k) {
      RetiredCover(rows, c.scope, k);
    }
    var m, n := HighestRowNo(a, v) + 1, HighestRowNo(b, v) + 1;
    LabelsAgree(a, b, c, Keys(c.legs), m, n);
    ServerRowsAppend(a, Labels(a, c, Keys(c.legs), m), v);
    ServerRowsAppend(b, Labels(b, c, Keys(c.legs), n), v);
    RetiredCover(rows, c.scope, Key(0, DR));
    OthersHoldNone(rows, v);
  }

  lemma {:induction false} OthersHoldNone(rows: seq<TenderRow>, v: nat)
    ensures ServerRows(Others(rows, v), v) == []
  {
    if rows != [] {
      var n := |rows| - 1;
      OthersHoldNone(rows[..n], v);
      var others := Others(rows[..n], v);
      assert (others + [rows[n]])[..|others|] == others;
    }
  }

  // ---------------------------------------------------------------- row numbers

  lemma {:induction false} LabelNumbers(rows: seq<TenderRow>, c: Call, keys: seq<Key>, rowNo: nat, i: nat)
    requires i < |Labels(rows, c, keys, rowNo)|
    ensures Labels(rows, c, keys, rowNo)[i].rowNo == rowNo + i
  {
    if keys != [] {
      var before := Labels(rows, c, keys[..|keys| - 1], rowNo);
      if i < |before| {
        LabelNumbers(rows, c, keys[..|keys| - 1], rowNo, i);
      }
    }
  }

  lemma {:induction false} HighestIsHighest(rows: seq<TenderRow>, voucher: nat, i: nat)
    requires i < |rows| && rows[i].srcDoc == Some(voucher) && rows[i].server
    ensures rows[i].rowNo <= HighestRowNo(rows, voucher)
  {
    if i < |rows| - 1 {
      HighestIsHighest(rows[..|rows| - 1], voucher, i);
    }
  }

  /** A new row's number is one no row of the voucher, standing or retired, has had. */
  lemma {:induction false} RowNumbersFresh(rows: seq<TenderRow>, c: Call, i: nat, j: nat)
    requires i < j < |Cover(rows, c)| && |rows| <= j
    requires Cover(rows, c)[i].srcDoc == Some(c.scope.voucher) && Cover(rows, c)[i].server
    ensures Cover(rows, c)[i].rowNo < Cover(rows, c)[j].rowNo
  {
    var rowNo := HighestRowNo(rows, c.scope.voucher) + 1;
    LabelNumbers(rows, c, Keys(c.legs), rowNo, j - |rows|);
    if i < |rows| {
      HighestIsHighest(rows, c.scope.voucher, i);
    } else {
      LabelNumbers(rows, c, Keys(c.legs), rowNo, i - |rows|);
    }
  }

  lemma {:induction false} BiggestIsBiggest(legs: seq<Leg>, k: Key, i: nat)
    requires i < |legs| && Opposite(legs[i], k)
    ensures var best := Biggest(legs, k);
      best.Some? && best.value in legs && Opposite(best.value, k) && legs[i].amount <= best.value.amount
  {
    var n := |legs| - 1;
    assert legs == legs[..n] + [legs[n]];
    if i < n {
      BiggestIsBiggest(legs[..n], k, i);
    } else {
      BiggestFound(legs[..n], k);
    }
  }

  lemma {:induction false} BiggestFound(legs: seq<Leg>, k: Key)
    ensures var best := Biggest(legs, k); best.Some? ==> best.value in legs && Opposite(best.value, k)
  {
    if legs != [] {
      BiggestFound(legs[..|legs| - 1], k);
    }
  }

  // ---------------------------------------------------------------- in plain terms

  /**
   Which rows count.  A live row counts when the voucher claims it or is its source; on a re-tender, when it
   stands in place of the voided row; otherwise, when it is the document's own and no voucher claims it.  What it
   counts for is its side of the ledger it names and of the one it settles to.
   */
  ghost predicate Counted(r: TenderRow, s: Scope, k: Key) {
    var claimed := r.voucher == Some(s.voucher) || r.srcDoc == Some(s.voucher);
    var replacing := s.retender && s.srcDoc.Some? && r.inPlaceOf.Some? && r.inPlaceOf.value == s.srcDoc.value;
    var unclaimed := !s.retender && s.srcDoc.Some? && r.srcDoc.Some? && r.srcDoc.value == s.srcDoc.value && r.voucher.None?;
    && r.deleted == false && (claimed || replacing || unclaimed)
    && r.side == k.side && (r.ledger == k.ledger || (r.settle.Some? && r.settle.value == k.ledger))
  }

  /** The cover is what those rows add up to, and on a re-tender the voided row's amount on the other side of its ledger. */
  lemma {:induction false} CoverMeaning(rows: seq<TenderRow>, r: TenderRow, s: Scope, k: Key)
    ensures Covered(rows + [r], s, k) == Covered(rows, s, k) + if Counted(r, s, k) then r.amount else 0
    ensures s.retender && s.srcDoc.Some? && s.voided.Some? ==>
      var voided := s.voided.value.0;
      Covered([], s, k) == if voided.ledger == k.ledger && voided.side != k.side then s.voided.value.1 else 0
    ensures !(s.retender && s.srcDoc.Some? && s.voided.Some?) ==> Covered([], s, k) == 0
  {
    assert (rows + [r])[..|rows|] == rows;
  }

  /** What a document's own rows, claimed by no voucher, put on a side of a ledger. */
  ghost function OwnRows(rows: seq<TenderRow>, doc: nat, k: Key): int {
    if rows == [] then 0
    else
      var r := rows[|rows| - 1];
      OwnRows(rows[..|rows| - 1], doc, k)
      + if !r.deleted && r.srcDoc == Some(doc) && r.voucher == None && r.side == k.side
           && (r.ledger == k.ledger || r.settle == Some(k.ledger)) then r.amount else 0
  }

  lemma {:induction false} OwnRowsCount(rows: seq<TenderRow>, s: Scope, doc: nat, k: Key)
    requires !s.retender && s.srcDoc == Some(doc) && forall r | r in rows :: r.amount >= 0
    ensures OwnRows(rows, doc, k) <= Covered(rows, s, k)
  {
    if rows != [] {
      var n := |rows| - 1;
      OwnRowsCount(rows[..n], s, doc, k);
      CoverMeaning(rows[..n], rows[n], s, k);
      assert rows[n] in rows && rows == rows[..n] + [rows[n]];
    }
  }

  lemma {:induction false} NothingLacks(rows: seq<TenderRow>, c: Call, keys: seq<Key>, rowNo: nat)
    requires forall k | k in keys :: !Lacks(rows, c, k)
    ensures Labels(rows, c, keys, rowNo) == [] && Gaps(rows, c, keys) == []
  {
    if keys != [] {
      assert keys[|keys| - 1] in keys;
      NothingLacks(rows, c, keys[..|keys| - 1], rowNo);
    }
  }

  /** A voucher whose money lines its document's unclaimed rows already meet gets no row and has no gap. */
  lemma {:induction false} OwnRowsSuffice(rows: seq<TenderRow>, c: Call, doc: nat)
    requires !c.scope.retender && c.scope.srcDoc == Some(doc) && forall r | r in rows :: r.amount >= 0
    requires forall k: Key :: c.isMoney(k.ledger) ==> OwnRows(rows, doc, k) >= Need(c.legs, k)
    ensures Cover(rows, c) == rows && Covering(rows, c) == Ok((0, []))
  {
    forall k ensures !Lacks(rows, c, k) {
      OwnRowsCount(rows, c.scope, doc, k);
    }
    NothingLacks(rows, c, Keys(c.legs), HighestRowNo(rows, c.scope.voucher) + 1);
  }

  /** What a leg asks for: its amount, on its ledger and side; one without a ledger asks for nothing. */
  lemma {:induction false} NeedMeaning(legs: seq<Leg>, l: Leg, k: Key)
    ensures Need([], k) == 0
    ensures Need(legs + [l], k)
         == Need(legs, k) + if l.ledger.Some? && l.ledger.value == k.ledger && l.side == k.side then l.amount else 0
  {
    assert (legs + [l])[..|legs|] == legs;
  }

  /** Who a new row says the money went to: the party, else the first biggest leg on the other side of another ledger. */
  ghost predicate FirstBiggest(legs: seq<Leg>, k: Key, i: nat) {
    && i < |legs| && legs[i].ledger.Some? && legs[i].ledger.value != k.ledger && legs[i].side != k.side
    && forall j | 0 <= j < |legs| && legs[j].ledger.Some? && legs[j].ledger.value != k.ledger && legs[j].side != k.side ::
         legs[j].amount <= legs[i].amount && (j < i ==> legs[j].amount < legs[i].amount)
  }

  ghost predicate NoOpposite(legs: seq<Leg>, k: Key) {
    forall j | 0 <= j < |legs| :: !(legs[j].ledger.Some? && legs[j].ledger.value != k.ledger && legs[j].side != k.side)
  }

  lemma {:induction false} BiggestIsFirst(legs: seq<Leg>, k: Key)
    ensures var best := Biggest(legs, k);
      if best.None? then NoOpposite(legs, k) else exists i: nat :: FirstBiggest(legs, k, i) && best == Some(legs[i])
  {
    if legs != [] {
      var n := |legs| - 1;
      var before := legs[..n];
      BiggestIsFirst(before, k);
      assert forall j | 0 <= j < n :: legs[j] == before[j];
      if Biggest(before, k).Some? {
        var i: nat :| FirstBiggest(before, k, i) && Biggest(before, k) == Some(before[i]);
        assert FirstBiggest(legs, k, if Biggest(legs, k) == Biggest(before, k) && legs[i] == before[i] && !(Opposite(legs[n], k) && legs[n].amount > legs[i].amount) then i else n);
      } else if Biggest(legs, k).Some? {
        assert FirstBiggest(legs, k, n);
      }
    }
  }

  lemma {:induction false} CounterpartMeaning(c: Call, k: Key)
    ensures c.scope.party.Some? ==> Counterpart(c, k) == c.scope.party.value
    ensures c.scope.party.None? ==>
      || (exists i: nat :: FirstBiggest(c.legs, k, i) && Counterpart(c, k) == c.legs[i].ledger.value)
      || (NoOpposite(c.legs, k) && Counterpart(c, k) == k.ledger)
  {
    BiggestIsFirst(c.legs, k);
  }

  /** Every new row is the voucher's own and the server's, live, on a money line that was short, for just the shortfall. */
  ghost predicate IsLabel(r: TenderRow, rows: seq<TenderRow>, c: Call) {
    var k := Key(r.ledger, r.side);
    && r.voucher == Some(c.scope.voucher) && r.srcDoc == Some(c.scope.voucher) && r.server && !r.deleted
    && r.inPlaceOf == None && r.settle == None
    && c.isMoney(r.ledger) && Need(c.legs, k) > 0 && r.amount > 0 && r.amount == Need(c.legs, k) - Covered(rows, c.scope, k)
    && c.pick(k) == Some(r.tender) && r.party == Counterpart(c, k)
  }

  lemma {:induction false} LabelsAre(rows: seq<TenderRow>, c: Call, keys: seq<Key>, rowNo: nat, i: nat)
    requires i < |Labels(rows, c, keys, rowNo)| && forall k | k in keys :: Need(c.legs, k) > 0
    ensures IsLabel(Labels(rows, c, keys, rowNo)[i], rows, c)
  {
    var before := Labels(rows, c, keys[..|keys| - 1], rowNo);
    assert forall k | k in keys[..|keys| - 1] :: k in keys;
    assert keys[|keys| - 1] in keys;
    if i < |before| { LabelsAre(rows, c, keys[..|keys| - 1], rowNo, i); }
  }

  lemma {:induction false} NewRowsAre(rows: seq<TenderRow>, c: Call, i: nat)
    requires |rows| <= i < |Cover(rows, c)|
    ensures rows <= Cover(rows, c) && IsLabel(Cover(rows, c)[i], rows, c)
  {
    KeysMeaning(c.legs);
    LabelsAre(rows, c, Keys(c.legs), HighestRowNo(rows, c.scope.voucher) + 1, i - |rows|);
  }

  /** A refusal: no sale, and a money line is short that no tender can be picked for. */
  lemma {:induction false} RefusedIff(rows: seq<TenderRow>, c: Call)
    ensures Covering(rows, c).Err?
       <==> !c.scope.sales && exists k: Key :: c.isMoney(k.ledger) && c.pick(k) == None && Need(c.legs, k) > 0
                                          && Covered(rows, c.scope, k) < Need(c.legs, k)
    ensures Covering(rows, c).Ok? ==> Covering(rows, c).value.0 == |Cover(rows, c)| - |rows|
  {
    KeysMeaning(c.legs);
    GapsMeaning(rows, c, Keys(c.legs));
    var gaps := Gaps(rows, c, Keys(c.legs));
    if gaps != [] {
      assert Gap(gaps[0].key, gaps[0].amount) == gaps[0] && gaps[0] in gaps;
    }
    if k: Key :| c.isMoney(k.ledger) && c.pick(k) == None && Need(c.legs, k) > 0 && Covered(rows, c.scope, k) < Need(c.legs, k) {
      assert Gap(k, Short(rows, c, k)) in gaps;
    }
  }

  /** Retiring flags the server's rows that the voucher claims, and nothing else. */
  lemma {:induction false} RetireMeaning(rows: seq<TenderRow>, voucher: nat, i: nat)
    requires i < |rows|
    ensures |Retire(rows, voucher)| == |rows|
    ensures Retire(rows, voucher)[i]
         == if rows[i].server && rows[i].voucher.Some? && rows[i].voucher.value == voucher then rows[i].(deleted := true) else rows[i]
  {
    var n := |rows| - 1;
    RetireLength(rows[..n], voucher);
    if i < n { RetireMeaning(rows[..n], voucher, i); }
  }

  lemma {:induction false} RetireLength(rows: seq<TenderRow>, voucher: nat)
    ensures |Retire(rows, voucher)| == |rows|
  {
    if rows != [] { RetireLength(rows[..|rows| - 1], voucher); }
  }

  /** A first new row comes one past the highest number of the voucher's server rows, deleted ones included. */
  lemma {:induction false} HighestRowNoMeaning(rows: seq<TenderRow>, voucher: nat)
    ensures var n := HighestRowNo(rows, voucher);
      && (forall i | 0 <= i < |rows| && rows[i].server && rows[i].srcDoc == Some(voucher) :: rows[i].rowNo <= n)
      && (n == 0 || exists i :: 0 <= i < |rows| && rows[i].server && rows[i].srcDoc == Some(voucher) && rows[i].rowNo == n)
  {
    if rows != [] {
      var n := |rows| - 1;
      HighestRowNoMeaning(rows[..n], voucher);
      assert forall i | 0 <= i < n :: rows[..n][i] == rows[i];
      var h := HighestRowNo(rows[..n], voucher);
      if HighestRowNo(rows, voucher) == h != 0 {
        var i :| 0 <= i < n && rows[..n][i].server && rows[..n][i].srcDoc == Some(voucher) && rows[..n][i].rowNo == h;
        assert rows[i].server && rows[i].srcDoc == Some(voucher) && rows[i].rowNo == h;
      }
    }
  }

  lemma {:induction false} FirstNewNumber(rows: seq<TenderRow>, c: Call)
    requires |Cover(rows, c)| > |rows|
    ensures Cover(rows, c)[|rows|].rowNo == HighestRowNo(rows, c.scope.voucher) + 1
  {
    LabelNumbers(rows, c, Keys(c.legs), HighestRowNo(rows, c.scope.voucher) + 1, 0);
  }

  /** Keys come in the order of the first leg that names them with an amount. */
  ghost predicate NamedFirst(legs: seq<Leg>, k: Key, i: nat) {
    && i < |legs| && legs[i].amount > 0 && legs[i].ledger == Some(k.ledger) && legs[i].side == k.side
    && forall j | 0 <= j < i :: !(legs[j].amount > 0 && legs[j].ledger == Some(k.ledger) && legs[j].side == k.side)
  }

  lemma {:induction false} StillNamed(before: seq<Leg>, l: Leg, k: Key, i: nat)
    requires NamedFirst(before, k, i)
    ensures NamedFirst(before + [l], k, i)
  {
    assert forall j | 0 <= j < |before| :: (before + [l])[j] == before[j];
  }

  lemma {:induction false} NewlyNamed(before: seq<Leg>, l: Leg, k: Key)
    requires Need(before, k) == 0 && l.amount > 0 && l.ledger == Some(k.ledger) && l.side == k.side
    ensures NamedFirst(before + [l], k, |before|)
  {
    NeverNamed(before, k);
    assert forall j | 0 <= j < |before| :: (before + [l])[j] == before[j];
  }

  lemma {:induction false} KeysOneMore(before: seq<Leg>, l: Leg)
    ensures var keys := Keys(before);
      Keys(before + [l]) == if l.ledger.None? || l.amount == 0 || Key(l.ledger.value, l.side) in keys then keys
                            else keys + [Key(l.ledger.value, l.side)]
  {
    assert (before + [l])[..|before|] == before;
  }

  lemma {:induction false} KeysFirstNamed(legs: seq<Leg>) returns (at: seq<nat>)
    ensures |at| == |Keys(legs)| && forall n | 0 <= n < |at| :: NamedFirst(legs, Keys(legs)[n], at[n])
    ensures forall m, n | 0 <= m < n < |at| :: at[m] < at[n]
  {
    at := [];
    if legs != [] {
      var before, l := legs[..|legs| - 1], legs[|legs| - 1];
      var keys := Keys(before);
      assert legs == before + [l];
      at := KeysFirstNamed(before);
      KeysOneMore(before, l);
      forall n | 0 <= n < |keys| ensures NamedFirst(legs, keys[n], at[n]) { StillNamed(before, l, keys[n], at[n]); }
      if |Keys(legs)| > |keys| {
        var k := Key(l.ledger.value, l.side);
        KeysMeaning(before);
        NewlyNamed(before, l, k);
        at := at + [|before|];
      }
    }
  }

  lemma {:induction false} NeverNamed(legs: seq<Leg>, k: Key)
    requires Need(legs, k) == 0
    ensures forall j | 0 <= j < |legs| :: !(legs[j].amount > 0 && legs[j].ledger == Some(k.ledger) && legs[j].side == k.side)
  {
    if legs != [] {
      NeverNamed(legs[..|legs| - 1], k);
      assert forall i | 0 <= i < |legs| - 1 :: legs[..|legs| - 1][i] == legs[i];
    }
  }

  // ---------------------------------------------------------------- the loops

  /** The loop over the keys after i turns. */
  ghost predicate Turned(
    have: seq<TenderRow>, c: Call, keys: seq<Key>, i: nat, first: nat, rows: seq<TenderRow>, gaps: seq<Gap>)
  {
    i <= |keys| && rows == have + Labels(have, c, keys[..i], first) && gaps == Gaps(have, c, keys[..i])
  }

  lemma {:induction false} CoverTurn(
    have: seq<TenderRow>, c: Call, keys: seq<Key>, i: nat, first: nat, rows: seq<TenderRow>, gaps: seq<Gap>)
    requires i < |keys| && Turned(have, c, keys, i, first, rows, gaps)
    ensures var k, short := keys[i], Short(have, c, keys[i]);
      if !Lacks(have, c, k) then Turned(have, c, keys, i + 1, first, rows, gaps)
      else if c.pick(k).None? then Turned(have, c, keys, i + 1, first, rows, gaps + [Gap(k, short)])
      else
        Turned(have, c, keys, i + 1, first, rows + [Label(c, k, c.pick(k).value, short, first + |rows| - |have|)], gaps)
  {
    assert keys[..i + 1][..i] == keys[..i];
  }

  class TenderTable {
    var rows: seq<TenderRow>

    constructor ()
      ensures rows == []
    {
      rows := [];
    }

    method NeedByKey(legs: seq<Leg>) returns (keys: seq<Key>, need: map<Key, nat>)
      ensures keys == Keys(legs)
      ensures forall k :: k in need <==> k in keys
      ensures forall k | k in need :: need[k] == Need(legs, k)
    {
      keys, need := [], map[];
      for i := 0 to |legs|
        invariant keys == Keys(legs[..i])
        invariant forall k :: k in need <==> k in keys
        invariant forall k | k in need :: need[k] == Need(legs[..i], k)
      {
        assert legs[..i + 1][..i] == legs[..i];
        KeysMeaning(legs[..i]);
        var l := legs[i];
        if l.ledger.None? || l.amount == 0 {
          continue;
        }
        var k := Key(l.ledger.value, l.side);
        if k !in need {
          keys := keys + [k];
        }
        need := need[k := (if k in need then need[k] else 0) + l.amount];
      }
      assert legs[..|legs|] == legs;
    }

    method CounterpartOf(c: Call, k: Key) returns (party: nat)
      ensures party == Counterpart(c, k)
    {
      if c.scope.party.Some? {
        return c.scope.party.value;
      }
      var best: Option<Leg> := None;
      for i := 0 to |c.legs|
        invariant best == Biggest(c.legs[..i], k)
      {
        assert c.legs[..i + 1][..i] == c.legs[..i];
        var l := c.legs[i];
        if !Opposite(l, k) {
          continue;
        }
        if best.None? || l.amount > best.value.amount {
          best := Some(l);
        }
      }
      assert c.legs[..|c.legs|] == c.legs;
      return if best.Some? && best.value.ledger.Some? then best.value.ledger.value else k.ledger;
    }

    /** One line short of cover: a label when a tender can be picked, a gap when none can. */
    method CoverShort(c: Call, k: Key, short: int, rowNo: nat) returns (gap: Option<Gap>)
      modifies this
      ensures if c.pick(k).Some? then gap == None && rows == old(rows) + [Label(c, k, c.pick(k).value, short, rowNo)]
              else gap == Some(Gap(k, short)) && rows == old(rows)
    {
      var pick := c.pick(k);
      if pick.None? {
        return Some(Gap(k, short));
      }
      rows := rows + [Label(c, k, pick.value, short, rowNo)];
      return None;
    }

    /** The rows and gaps once every key has had its turn. */
    method CoverKeys(c: Call, keys: seq<Key>, need: map<Key, nat>) returns (written: nat, gaps: seq<Gap>)
      requires forall k | k in keys :: k in need && need[k] == Need(c.legs, k)
      modifies this
      ensures rows == old(rows) + Labels(old(rows), c, keys, HighestRowNo(old(rows), c.scope.voucher) + 1)
      ensures written == |rows| - |old(rows)| && gaps == Gaps(old(rows), c, keys)
    {
      var have, rowNo := rows, HighestRowNo(rows, c.scope.voucher) + 1;
      ghost var first := rowNo;
      written, gaps := 0, [];
      for i := 0 to |keys|
        invariant Turned(have, c, keys, i, first, rows, gaps)
        invariant written == |rows| - |have| && rowNo == first + written
      {
        var k := keys[i];
        assert k in keys;
        var short := need[k] - Covered(have, c.scope, k);
        CoverTurn(have, c, keys, i, first, rows, gaps);
        if !c.isMoney(k.ledger) || short <= 0 {
          continue;
        }
        var gap := CoverShort(c, k, short, rowNo);
        if gap.Some? {
          gaps := gaps + [gap.value];
        } else {
          rowNo, written := rowNo + 1, written + 1;
        }
      }
      assert keys[..|keys|] == keys;
    }

    /** A refusal rolls the rows already written back with the caller's transaction. */
    method CoverMoneyLines(c: Call) returns (r: Result<(nat, seq<Gap>), seq<Gap>>)
      modifies this
      ensures rows == if r.Ok? then Cover(old(rows), c) else old(rows)
      ensures r == Covering(old(rows), c)
    {
      var saved := rows;
      var keys, need := NeedByKey(c.legs);
      var written, gaps := CoverKeys(c, keys, need);
      if gaps != [] && !c.scope.sales {
        rows := saved;
        return Err(gaps);
      }
      return Ok((written, gaps));
    }

    method RetireMoneyLineRows(voucher: nat)
      modifies this
      ensures rows == Retire(old(rows), voucher)
    {
      var done: seq<TenderRow> := [];
      for i := 0 to |rows|
        invariant rows == old(rows)
        invariant done == Retire(rows[..i], voucher)
      {
        assert rows[..i + 1][..i] == rows[..i];
        done := done + [if OfServer(rows[i], voucher) then rows[i].(deleted := true) else rows[i]];
      }
      assert rows[..|rows|] == rows;
      rows := done;
    }

    /** An amended voucher's new legs; a refusal brings the retired rows back too. */
    method Amend(c: Call) returns (r: Result<(nat, seq<Gap>), seq<Gap>>)
      modifies this
      ensures rows == if r.Ok? then Cover(Retire(old(rows), c.scope.voucher), c) else old(rows)
      ensures r == Covering(Retire(old(rows), c.scope.voucher), c)
    {
      var saved := rows;
      RetireMoneyLineRows(c.scope.voucher);
      r := CoverMoneyLines(c);
      if r.Err? {
        rows := saved;
      }
    }
  }
}
