# The accounting kernel, in Dafny

A model of the posting kernel of a retail ERP back end and of the protocol and index code around it, with
proofs of what that code is for.  `dafny verify dfyconfig.toml` checks everything; no file depends on a library.

| part | files |
|---|---|
| Bill set-offs: an append-only log of paired rows, reversals, hand-kept allocations, concurrent transactions | `SetOff.dfy` (the engine as plans of operations), `SetOffLog.dfy`, `SetOffLaws.dfy`, `SetOffSync.dfy`, `SetOffTheorems.dfy` (what a sync keeps and achieves), `SetOffSuccess.dfy` (exactly when it succeeds), `SetOffRows.dfy` (what it writes, reports and refuses, field by field), `SetOffRuns.dfy` (interleavings), `SetOffStanding.dfy` (what they all keep of the log), `SetOffSerial.dfy` (invoices kept apart), `SetOffSolo.dfy`, `SetOffSettled.dfy`, `SetOffAlong.dfy`, `SetOffOverlap.dfy` (several transactions inside one invoice), `SetOffLocks.dfy` (waiting for credit rows), `SetOffBook.dfy` (the object and its loops) |
| Voucher posting: draft, posted, cancelled; post, restate, mirror | `Rounding.dfy`, `RoundingBound.dfy`, `Vouchers.dfy` (state machine and invariant), `VoucherSteps.dfy` (what each step writes and moves), `VoucherBooks.dfy` (refinement to a plain ledger), `VoucherSerials.dfy`, `VoucherBook.dfy` (the service object) |
| Numbers under advisory locks | `Numbering.dfy`, `LockOrder.dfy`, `Refno.dfy` |
| The hand-written Redis client | `Resp.dfy` (the protocol), `RespReader.dfy` (the client's reader and chunking), `RedisConnection.dfy` (command/reply pairing), `RedisClient.dfy` (the reader and connection in the client's own form) |
| Tenders on cash and bank lines | `MoneyLines.dfy` |
| Error wording, balance over the years, SQL scanners, batch numbers | `ErrorWording.dfy`, `BalanceWalk.dfy`, `SqlScanner.dfy`, `SqlList.dfy`, `BatchNumbers.dfy` |
| Shared | `Prelude.dfy`, `Decimal.dfy`, `Texts.dfy` |

Conventions.  Money is an integer number of paise, except in `Rounding.dfy` and
`RoundingBound.dfy`, where amounts are exact reals.  A
table is a sequence or a map, a row lock or an advisory lock is a step that waits until nobody else holds it,
and a database constraint is a step that is refused.  A thrown error is an `Err`.  Where the source updates
fields in a loop there is a class with the same loop, proved to compute the function the theorems are about.

Some results are about where the code stops short:

- One request sent several times at once can be taken from its credits twice if and only if each of them covers
  its line twice (`SetOffOverlap.OverlapIff`): a transaction that looked before another's commit and asks what is
  reversed after it finds nothing standing.  Each credit still moves by exactly what comes to stand against it
  (`SetOffStanding.CreditsStand`).
- Credit rows are locked in the order of the request: two new settlements of different invoices can deadlock
  exactly when they come to different shared credits first (`SetOffLocks.SettlementsDeadlockIff`).
- An error nested in a Redis array ends the array early and puts the rest of the stream out of step, and
  nothing else does (`RespReader.ReadsFaithfullyIff`, `RespReader.StreamDeliveredIff`).
- A mirror can itself be cancelled or retired; the books then count the cancelled document again
  (`VoucherBooks.StepAgreesIff`, `VoucherBooks.MovingMirrorReinstates`).
- A retired voucher posted as a fresh draft loses its serial for good (`VoucherSerials.RunSerialsIff`,
  `VoucherSerials.ReusedDraftLosesSerial`).
- The opposite lock orders of post and reversal deadlock exactly when a document is posted in a counter that
  reversals also draw on (`LockOrder.DeadlockIff`).
- The search loop of the batch numbers is needed only for a configured prefix that contains a line end
  (`BatchNumbers.FirstTryFreeIff`).

## Model

| member | source | states |
|---|---|---|
| `SetOffSerial.Serializable` | src/common/posting/bill-adjustment.helper.ts:137-175 | as long as no two transactions are inside one invoice, any interleaving of transactions settling any invoices, each in separate reads and writes, with aborts, ends in exactly the books that its committed syncs make one after the other in commit order |
| `SetOffOverlap.OverlapIff` | src/common/posting/bill-adjustment.helper.ts:137-175 | for books in order, any invoice and any request: transactions that all carry it, any number in any interleaving, can leave two pairs of the invoice and one credit standing if and only if the request replaces what stands by something, would succeed on its own, and every credit it names covers its line twice, counting what the invoice already takes |
| `SetOffOverlap.OverlapTakesTwice` | src/common/posting/bill-adjustment.helper.ts:237-281 | when that is so, a transaction that looks before another one commits and asks what is reversed after it posts the request once more: every line is taken from its credit twice, and no syncs one after the other lead to those books |
| `SetOffOverlap.TakenOnceAtMost` | src/common/posting/bill-adjustment.helper.ts:237-281 | when it is not, every interleaving leaves the rows as they were, or the request standing once with each credit at the figure one sync leaves it with |
| `SetOffOverlap.OneLineOverlapIff` | src/common/posting/bill-adjustment.helper.ts:137-175 | one line that succeeds on its own on an invoice with nothing standing can be taken twice if and only if it is at most half of what the credit has pending |
| `SetOffAlong.AlongCommits` | src/common/posting/bill-adjustment.helper.ts:283-372 | whatever a transaction found before others carrying its request overtook it, its commit leaves the request standing once, unless the credits cover it twice |
| `SetOffAlong.AlongStays` | src/common/posting/bill-adjustment.helper.ts:309-333 | another replacement leaves what a transaction found either all that stands or all reversed |
| `SetOffSettled.PostsAgainIff` | src/common/posting/bill-adjustment.helper.ts:541-590 | once a request stands, its lines can be posted once more if and only if every credit covers its line twice |
| `SetOffSettled.ReplaceMoves` | src/common/posting/bill-adjustment.helper.ts:591-620 | replacing moves each credit from what the invoice took to what the request takes, no more |
| `SetOffSolo.Solo` | src/common/posting/bill-adjustment.helper.ts:137-175 | from any stage of its reads and writes, a transaction alone with the locks and a sync that would succeed on the books as they are carries it through and commits exactly that sync |
| `SetOffRuns.CreditsConserved` | src/common/posting/bill-adjustment.helper.ts:283-428 | over any interleaving at all, between the separate reads of one sync and with two transactions inside one invoice included, each credit's allocation moves by exactly the signed sum of its rows and no commit leaves it outside 0 .. face |
| `SetOffStanding.CreditsStand` | src/common/posting/bill-adjustment.helper.ts:237-281 | over any interleaving at all that is the change in the sum of the amounts that stand against the credit over all invoices |
| `SetOffStanding.RunKeepsStanding` | prisma/migrations/20260811080000_replace_acc_bill_balance_and_adjustment/migration.sql:525-533 | in every state of every run each reversal negates exactly its target, no row is reversed twice, every row that is no reversal has its twin beside it, and the two rows of a pair stand or fall together |
| `SetOffStanding.CommitKeepsPairs` | src/common/posting/bill-adjustment.helper.ts:283-372 | whatever was committed since a transaction read, what it commits keeps reversals exact and single and pairs together |
| `SetOffStanding.UnreversedPicked` | src/common/posting/bill-adjustment.helper.ts:309-333 | the check for reversals made at a later moment than the search for rows still picks both rows of a pair or neither |
| `SetOffRuns.StepKeepsLocks` | src/common/posting/bill-adjustment.helper.ts:475-606 | every step of any interleaving keeps each transaction part-way through its operations on the books as committed now |
| `SetOffSerial.StepKeepsInv` | src/common/posting/bill-adjustment.helper.ts:374-428 | from a state with invoices kept apart every read, lock, operation, commit and abort step keeps what was read current; only a commit changes the books, and then by one whole sync |
| `SetOffSerial.NextReadPlanned` | src/common/posting/bill-adjustment.helper.ts:283-333 | with invoices kept apart each read takes a transaction on along the plan it would read in one instant |
| `SetOffSerial.TwoReads` | src/common/posting/bill-adjustment.helper.ts:237-281 | finding the rows and then asking which of them are reversed is the look-up of the standing rows |
| `SetOffSerial.CommitIsSync` | src/common/posting/bill-adjustment.helper.ts:137-175 | what a transaction commits, piece by piece against a moving database, is one sync of the books it commits into |
| `SetOffSerial.CommitIsForeign` | src/common/posting/bill-adjustment.helper.ts:237-281 | one invoice's sync leaves everything another invoice's look-ups read as it was |
| `SetOffSerial.PlanStable` | src/common/posting/bill-adjustment.helper.ts:137-175 | a plan read before another invoice's commit is the plan that would be read after it |
| `SetOffRuns.RunFramed` | src/common/posting/bill-adjustment.helper.ts:475-606 | another transaction's commit leaves a sync in progress exactly where it was, because of the row locks |
| `SetOffLocks.DeadlockIff` | src/common/posting/bill-adjustment.helper.ts:475-606 | a workload of lock orders can end in transactions waiting in a circle if and only if orders of it, cut somewhere with nothing held in common, each want what the next holds |
| `SetOffLocks.PairDeadlockIff` | src/common/posting/bill-adjustment.helper.ts:475-606 | any number of transactions of two lock orders can deadlock if and only if the first row of the one that the other names is not the first row of the other that the one names |
| `SetOffLocks.SettlementsDeadlockIff` | src/common/posting/bill-adjustment.helper.ts:374-428 | two new settlements of different invoices can deadlock if and only if their requests come to different shared credits first |
| `SetOffLocks.OrderedNeverDeadlocks` | src/common/posting/bill-adjustment.helper.ts:374-428 | requests that all name credits in one order never wait in a circle |
| `SetOffLocks.OrderTouches` | src/common/posting/bill-adjustment.helper.ts:283-428 | the rows of an order are exactly the rows its operations touch |
| `SetOffSync.SyncKeepsBooks` | src/common/posting/bill-adjustment.helper.ts:137-175 | every successful sync keeps the log invariant (rows only appended, exact and single reversals, standing pairs of equal amount and opposite side, one per invoice and credit), every credit within its face, and every other invoice's rows untouched |
| `SetOffSync.ChangeReplaces` | src/common/posting/bill-adjustment.helper.ts:283-428 | a sync that changes something leaves the log in order, the standing lines equal to the merged request, and other invoices alone |
| `SetOffSync.KeepBooks` | src/common/posting/bill-adjustment.helper.ts:145-160 | when nothing changes no row is written, and the invoice figure is re-settled exactly when a pair stands |
| `SetOffSync.RunBacked` | src/common/posting/bill-adjustment.helper.ts:572-606 | no sequence of operations takes a credit out of 0 .. face or below what its rows account for |
| `SetOffTheorems.SyncSettlesRequest` | src/common/posting/bill-adjustment.helper.ts:137-175 | after a sync with a sent request the standing set is the merged request, and whenever a pair stood before or stands now the invoice figure is min(bill, paid + set-offs) |
| `SetOffTheorems.PathIndependent` | src/common/posting/bill-adjustment.helper.ts:622-642 | two histories that end in the same request end in the same standing set and the same invoice figure |
| `SetOffTheorems.RepeatIsNoOp` | src/common/posting/bill-adjustment.helper.ts:216-229 | repeating a settlement changes nothing in the whole books: no row, no figure |
| `SetOffTheorems.AbsentIsNotEmpty` | src/common/posting/bill-adjustment.helper.ts:145-160 | an absent request keeps every row and rewrites the figure from what stands |
| `SetOffTheorems.CreditMovesByStanding` | src/common/posting/bill-adjustment.helper.ts:591-620 | one sync moves each credit by exactly the change in what stands against it |
| `SetOffTheorems.SyncFailsByName` | src/common/posting/bill-adjustment.helper.ts:475-590 | with the books in order a refusal always has a name: the missing-row and out-of-range database refusals on a credit cannot occur |
| `SetOffSuccess.SyncSucceedsIff` | src/common/posting/bill-adjustment.helper.ts:137-175 | a sync succeeds if and only if the request is acceptable, each credit is eligible and its pending amount plus what this invoice already takes from it covers the line, and the invoice figure lies in 0 .. face |
| `SetOffSuccess.UndoGivesBack` | src/common/posting/bill-adjustment.helper.ts:283-372 | undoing gives each credit back exactly what stood against it for this invoice |
| `SetOffSuccess.PostsIff` | src/common/posting/bill-adjustment.helper.ts:374-428 | the lines of a request can all be posted if and only if each could be posted first |
| `SetOffTheorems.MatchesIsPermutation` | src/common/posting/bill-adjustment.helper.ts:216-229 | for distinct credits the comparison of live and requested lines accepts only permutations |
| `SetOffTheorems.PermutationMatches` | src/common/posting/bill-adjustment.helper.ts:216-229 | and accepts every permutation |
| `SetOffTheorems.SplitSetOffs` | src/common/posting/bill-adjustment.helper.ts:715-731 | the two totals by liability, short of the whole by exactly the credits that are neither advance nor sales return |
| `SetOffLaws.NormalizeMeaning` | src/common/posting/bill-adjustment.helper.ts:180-211 | a request is accepted if and only if every amount is positive and no credit has two years; the merge has one line per credit with the credit's total |
| `SetOffLaws.UndoKeepsLog` | src/common/posting/bill-adjustment.helper.ts:283-372 | undoing every standing row of either side keeps the log invariant |
| `SetOffLaws.UndoLeaves` | src/common/posting/bill-adjustment.helper.ts:283-372 | after it nothing that concerns the invoice stands and nothing else has moved |
| `SetOffLaws.PostKeepsLog` | src/common/posting/bill-adjustment.helper.ts:374-428 | posting fresh pairs, one per credit, keeps the log invariant |
| `SetOffLaws.PostedLive` | src/common/posting/bill-adjustment.helper.ts:237-281 | read back in log order, what stands for the invoice is exactly the lines posted |
| `SetOffLaws.UndoMeansLive` | src/common/posting/bill-adjustment.helper.ts:237-281 | the invoice-side look-up misses nothing that the two-sided undo would find |
| `SetOffLog.RunConserves` | src/common/posting/bill-adjustment.helper.ts:591-620 | operations move every other bill's allocation by exactly the signed sum of the rows they append |
| `SetOffLog.SignedIsStanding` | src/common/posting/bill-adjustment.helper.ts:237-281 | a reversal and its target cancel: the signed sum of a balance's rows is the sum of those that stand |
| `SetOffLog.AfterUndo` | src/common/posting/bill-adjustment.helper.ts:283-372 | appending undo rows retires exactly their targets, and undo rows never stand |
| `SetOffLog.LiveIndicesExact` | src/common/posting/bill-adjustment.helper.ts:237-281 | the live look-up returns exactly the standing rows of the bill, in log order |
| `SetOffRows.WrittenRows` | src/common/posting/bill-adjustment.helper.ts:283-428 | what a sync writes, row by row and field by field: each row that stood for the invoice undone in log order, then the two rows of each line in the order of the request, with their bills, sides, types, amounts and numbers; nothing when nothing changes |
| `SetOffRows.NewPairsAdjust` | src/common/posting/bill-adjustment.helper.ts:60-63 | every new pair carries the advance type if and only if its credit is an advance, and the note type if and only if it is a sales return |
| `SetOffRows.EligibleMeaning` | src/common/posting/bill-adjustment.helper.ts:552-569 | the credits that can be set off are the open advances and sales returns of the company and party |
| `SetOffRows.MergeOrder` | src/common/posting/bill-adjustment.helper.ts:180-211 | the lines of the merged request come in the order in which their credits are first named |
| `SetOffRows.ActionMeaning` | src/common/posting/bill-adjustment.helper.ts:144-174 | the action reported says whether pairs stood before and stand after the sync, and whether they are others |
| `SetOffRows.RefusalMeaning` | src/common/posting/bill-adjustment.helper.ts:475-590 | each refusal of a line is equivalent to what is wrong with the credit |
| `SetOffRows.FirstRefusal` | src/common/posting/bill-adjustment.helper.ts:374-428 | a request that would change something and is refused is refused at its first line that the credits do not cover, with the reason, or else over the invoice figure |
| `SetOffRows.NormalizeStopsAt` | src/common/posting/bill-adjustment.helper.ts:180-211 | an unacceptable request is refused at its first line that is not positive or gives a credit a second year, and by that name |
| `SetOffBook.NormalizeRequest` | src/common/posting/bill-adjustment.helper.ts:180-211 | the merging loop computes the specified merge, or the refusal of the first offending line |
| `SetOffBook.Book.ReverseAll` | src/common/posting/bill-adjustment.helper.ts:283-372 | the undo loop performs the undo plan |
| `SetOffBook.Book.PostAll` | src/common/posting/bill-adjustment.helper.ts:374-428 | the posting loop performs the posting plan with its running row number |
| `SetOffBook.Book.SettleInvoiceAllocation` | src/common/posting/bill-adjustment.helper.ts:622-642 | the absolute write, capped at the bill, or the refusal of a figure out of range |
| `SetOffBook.Book.SyncBillAdjustments` | src/common/posting/bill-adjustment.helper.ts:137-175 | the object's state after the call is the specified sync, with the action reported; a refusal leaves it as it was |
| `VoucherBooks.BalanceSplits` | src/common/party/party-balance.service.ts:58-62 | the counted balance (POSTED and CANCELLED legs, never DRAFT) is the documents' part plus the gap, in every state |
| `VoucherBooks.BooksRefineLedger` | src/common/posting/voucher-posting.service.ts:62-346 | after any run of post, post-into-draft, retire, restate and cancel steps the standing documents are those of a plain ledger, and every ledger's counted balance is the sum of the legs they have now plus the drift of steps that moved a mirror; without such steps there is no drift |
| `VoucherBooks.RunAgreesIff` | src/common/posting/voucher-posting.service.ts:163-346 | books and documents agree in every state of a run if and only if every step is harmless |
| `VoucherBooks.StepAgreesIff` | src/common/posting/voucher-posting.service.ts:163-572 | from books in agreement a step leaves them in agreement if and only if it moves no mirror, or legs of a mirror that net to zero on every ledger |
| `VoucherBooks.HarmlessIff` | src/common/posting/voucher-posting.service.ts:163-191 | a cancel or a retire is harmless if and only if its target is no mirror or nets to zero on every ledger |
| `VoucherBooks.StepRefines` | src/common/posting/voucher-posting.service.ts:62-346 | each step changes the standing documents as a plain map of documents would, a step on a mirror not at all |
| `VoucherBooks.StepGap` | src/common/posting/voucher-posting.service.ts:163-572 | the difference between books and documents moves by exactly the drift of the step, for every kind of step |
| `VoucherBooks.CancelGap` | src/common/posting/voucher-posting.service.ts:452-572 | a cancel moves the difference by the legs of a mirror it was pointed at, and not at all for a document |
| `VoucherBooks.RetireGap` | src/common/posting/voucher-posting.service.ts:163-191 | and so does a retire |
| `VoucherBooks.CancelledCountsZero` | src/common/posting/voucher-posting.service.ts:452-572 | while mirrors are mirrors, a cancelled voucher and its mirror count for exactly zero on every ledger |
| `VoucherBooks.MovingMirrorReinstates` | src/common/posting/voucher-posting.service.ts:163-191 | cancelling a document and then cancelling or retiring its mirror makes the books count the cancelled document again |
| `Vouchers.RunKeepsInv` | src/common/posting/voucher-posting.service.ts:163-346 | in every reachable state a draft shows no legs, other vouchers have live legs 1..n with debits equal to credits, are numbered, and have different serials within a company and year, and a voucher is cancelled exactly when it and its mirror name each other |
| `Vouchers.ActsIff` | src/common/posting/voucher-posting.service.ts:163-346 | a step has an effect if and only if guards on the status, year, numbers, link and legs, readable before the call, hold |
| `VoucherSteps.StoredAt` | src/common/posting/voucher-posting.service.ts:349-392 | each leg is written on its own ledger and side, its amount rounded without its sign, numbered from 1 |
| `VoucherSteps.DocumentMoves` | src/common/posting/voucher-posting.service.ts:62-160 | on the plain ledger a document moves each ledger by the signed sum of the rounded legs handed over that name it |
| `VoucherSteps.StepMoves` | src/common/posting/voucher-posting.service.ts:62-572 | every step with an effect moves the counted balance of every ledger by the legs handed over, or takes back the legs it retires or mirrors |
| `VoucherSteps.PostNewWrites` | src/common/posting/voucher-posting.service.ts:62-160 | every field of a new voucher |
| `VoucherSteps.PostDraftWrites` | src/common/posting/voucher-posting.service.ts:273-346 | every field of a draft that is posted, and that no other voucher changes |
| `VoucherSteps.RestateWrites` | src/common/posting/voucher-posting.service.ts:198-265 | a restated voucher takes the new legs one revision on, with its own type and numbers |
| `VoucherSteps.RetireWrites` | src/common/posting/voucher-posting.service.ts:163-191 | a retired voucher is a draft again with every leg deleted, and nothing else changes |
| `VoucherSteps.CancelWrites` | src/common/posting/voucher-posting.service.ts:452-572 | the original keeps its numbers; the mirror has the type and number drawn for it, the next serial of the original's books and the legs on the other side, and the two name each other |
| `VoucherSteps.RefusedMeaning` | src/common/posting/voucher-posting.service.ts:62-76 | a post is refused for want of legs if and only if no leg comes to half a paisa, and as unbalanced if and only if the rounded totals differ |
| `VoucherSteps.FillErrors` | src/common/posting/voucher-posting.service.ts:198-346 | posting into a draft and restating: each refusal by its condition, in the order they are found |
| `VoucherSteps.CancelErrors` | src/common/posting/voucher-posting.service.ts:452-478 | a cancel does nothing without a standing original, and is refused only over the original's numbers |
| `Vouchers.StepKeepsInv` | src/common/posting/voucher-posting.service.ts:62-346 | every step keeps that invariant, on a document or on a mirror |
| `Vouchers.RunMirrorsIff` | src/common/posting/voucher-posting.service.ts:452-572 | in every state of a run each mirror is POSTED and has its original's legs with the sides swapped, if and only if no step of the run has an effect on a mirror |
| `Vouchers.StepMirrorsIff` | src/common/posting/voucher-posting.service.ts:452-572 | the same for one step |
| `Vouchers.RepeatCancel` | src/common/posting/voucher-posting.service.ts:452-478 | once a voucher is cancelled, a cancel of it after any later steps, in any number and type, changes nothing |
| `Vouchers.OneMirror` | src/common/posting/voucher-posting.service.ts:452-572 | a voucher has at most one mirror |
| `Vouchers.CheckNeverFires` | src/common/posting/voucher-posting.service.ts:349-392 | with amounts in whole paise the database's balance constraint never refuses what the service accepted |
| `VoucherBook.Service.PostLegs` | src/common/posting/voucher-posting.service.ts:62-160 | the new state and the id returned, for a new header, a fresh draft and a retired draft, and every refusal; the map of standing documents moves as the plain ledger says |
| `VoucherBook.Service.RestateLegs` | src/common/posting/voucher-posting.service.ts:198-265 | the retired header takes the new legs and keeps its numbers, or is refused |
| `VoucherBook.Service.PostIntoDraft` | src/common/posting/voucher-posting.service.ts:273-346 | a draft takes its numbers, legs and status, or is refused |
| `VoucherBook.Service.RetireForRestate` | src/common/posting/voucher-posting.service.ts:163-191 | back to DRAFT with every leg soft-deleted, exactly when the voucher was POSTED; the document stands no longer |
| `VoucherBook.Service.ReverseLegs` | src/common/posting/voucher-posting.service.ts:452-572 | original cancelled, mirror appended with sides swapped, both linked, the document standing no longer; nothing on a repeat |
| `VoucherBook.Service.AssertBalanced` | src/common/posting/voucher-posting.service.ts:647-659 | accepts exactly when the rounded side totals agree |
| `VoucherSerials.RunSerialsIff` | src/common/Sequence/voucher-sequence.helper.ts:137-158 | in every state of a run the serials of every company and year are exactly 1..k, each on one voucher, if and only if every draft posted had no serial and gets the next of its own books, or gets the serial it has |
| `VoucherSerials.StepExactIff` | src/common/posting/voucher-posting.service.ts:294-332 | the same for one step |
| `VoucherSerials.OwnDraftExactIff` | src/common/posting/voucher-posting.service.ts:294-332 | posted under its own company a draft keeps the serials exact if and only if it had none |
| `VoucherSerials.IndexNeverRefuses` | prisma/migrations/20260806090000_add_voucher_header_bills_pdc/migration.sql:195-197 | while the serials are exact the unique index on the serial refuses no step, but a draft posted under another company |
| `VoucherSerials.SerialStays` | src/common/posting/voucher-posting.service.ts:206-221 | from any point of a run to any later one a voucher not posted as a draft in between keeps its serial and number; restating keeps both |
| `VoucherSerials.ReusedDraftLosesSerial` | src/common/posting/voucher-posting.service.ts:294-332 | posting a retired voucher as a fresh draft gives it a higher serial, and nobody carries the old one afterwards |
| `Rounding.SumSides` | src/common/posting/voucher-posting.service.ts:667-678 | both side totals, each rounded once |
| `Rounding.KeptIff` | src/common/posting/voucher-posting.service.ts:66-68 | a leg is written if and only if its amount, either way, comes to half a paisa with the nudge counted in |
| `Rounding.RoundMeaning` | src/common/posting/voucher-posting.service.ts:680-682 | the nearest paisa after a nudge away from zero, a half going up |
| `Rounding.StoredNearlyBalances` | src/common/posting/voucher-posting.service.ts:647-682 | an accepted voucher of n legs of any precision is stored within n/2 + 1 paise of balance plus n epsilon nudges |
| `RoundingBound.HalfPaisaBoundIff` | src/common/posting/voucher-posting.service.ts:647-682 | every accepted voucher of n legs is stored within (n + 2)/2 paise of balance if and only if n is below the size, about 4.5 * 10^13, at which the epsilon nudges add up to a paisa |
| `RoundingBound.StoredWithinHalfPaisaPerLeg` | src/common/posting/voucher-posting.service.ts:647-682 | the bound for every voucher below that size |
| `RoundingBound.Unsettled` | src/common/posting/voucher-posting.service.ts:680-682 | a voucher beyond it that is accepted and stored further off |
| `Rounding.WholePaiseBalance` | src/common/posting/voucher-posting.service.ts:647-682 | with whole paise a voucher is accepted if and only if the stored legs balance exactly |
| `Numbering.NumbersConsecutive` | src/common/Sequence/voucher-sequence.helper.ts:52-158 | under any interleaving with aborts and any lock hash, the committed numbers of every scope are exactly 1..k in commit order, and a type scope has at most one counter row, which says k |
| `Numbering.NumbersDistinct` | src/common/Sequence/voucher-sequence.helper.ts:52-158 | no number is issued twice in a scope |
| `Numbering.HighestMeaning` | src/common/Sequence/voucher-sequence.helper.ts:148-157 | the serial read is the maximum of those of the company and year |
| `Numbering.StepKeepsInv` | src/common/Sequence/voucher-sequence.helper.ts:278-305 | every lock, draw, insert, commit and abort step keeps the numbering invariant |
| `Numbering.CommitKeepsOther` | src/common/Sequence/voucher-sequence.helper.ts:178-253 | a commit, counter row created or bumped, leaves every other transaction's numbers continuing what is committed |
| `Refno.RefnoInjective` | src/common/Sequence/voucher-sequence.helper.ts:162-177 | equal reference numbers of one prefix and suffix carry equal counters for any two widths; refused exactly when too long |
| `Refno.RefnosDistinct` | src/common/Sequence/voucher-sequence.helper.ts:52-177 | under any interleaving no reference number is printed twice in a scope, even when the width was changed in between |
| `Refno.RefnoReadsBack` | src/common/Sequence/voucher-sequence.helper.ts:162-177 | the counter reads back from the printed number, also when it outgrew its width |
| `Refno.RefnoMeaning` | src/common/Sequence/voucher-sequence.helper.ts:162-177 | prefix, counter padded with zeros to the width and never cut, suffix; 100 characters at most |
| `LockOrder.DeadlockIff` | src/common/posting/voucher-posting.service.ts:83-94 | a workload of one-call transactions can form a wait cycle on the advisory locks if and only if it posts in a counter it also reverses in |
| `LockOrder.CallsAre` | src/common/posting/voucher-posting.service.ts:83-94 | the calls there are: a post in the books of a company and year, with or without a number of its own type there, and a reversal |
| `LockOrder.NoCycle` | src/common/posting/voucher-posting.service.ts:502-515 | without such a clash no reachable state holds a wait cycle |
| `LockOrder.SomeoneCanGo` | src/common/posting/voucher-posting.service.ts:502-515 | whoever is blocked, some transaction can proceed |
| `LockOrder.ClashDeadlocks` | src/common/posting/voucher-posting.service.ts:294-302 | a post in the reversal type's counter and a reversal do deadlock |
| `RespReader.ChunkingIndependent` | src/common/redis/redis-cache.service.ts:228-246 | for any bytes, valid or not, and any split into chunks, the same replies are delivered in the same order with the same leftover |
| `RespReader.ReadStable` | src/common/redis/redis-cache.service.ts:247-360 | for any bytes, trailing bytes never change a result that is not incomplete |
| `RespReader.Agrees` | src/common/redis/redis-cache.service.ts:247-360 | the client reads alike whatever a strictly forward reader of the protocol does not find malformed |
| `RespReader.EncodeReads` | src/common/redis/redis-cache.service.ts:247-350 | whatever follows it, a server's reply reads as its meaning, or as its first error at the point it is read |
| `RespReader.ReadsFaithfullyIff` | src/common/redis/redis-cache.service.ts:319-350 | a reply is read for what it is if and only if no error is nested in an array |
| `RespReader.StreamDeliveredIff` | src/common/redis/redis-cache.service.ts:228-246 | however split, a stream of replies is delivered reply by reply if and only if none has a nested error |
| `RespReader.PrefixIncompleteIff` | src/common/redis/redis-cache.service.ts:228-246 | a beginning of any reply is incomplete if and only if it is short of what reading the reply uses |
| `RespReader.CommandReadsBack` | src/common/redis/redis-cache.service.ts:221-227 | a command's bytes read back as its parts, using exactly those bytes |
| `RespReader.OddStart` | src/common/redis/redis-cache.service.ts:247-270 | only the five marks start a reply, and nothing is read before the first line has ended |
| `RespReader.BulkRead` | src/common/redis/redis-cache.service.ts:293-318 | a bulk string by the length on its line, whatever the bytes |
| `RespReader.BackwardBulk` | src/common/redis/redis-cache.service.ts:293-318 | a length below -1 looks for the line end inside the reply's own first line: -2 makes an empty string, any other an error |
| `RespReader.OddArrays` | src/common/redis/redis-cache.service.ts:319-350 | a count that is no number, zero or below -1 makes an empty array, -1 null |
| `Resp.EncodeParses` | src/common/redis/redis-cache.service.ts:247-350 | the forward reader reads a server's reply as its meaning, or as its first error |
| `Resp.ParseLocal` | src/common/redis/redis-cache.service.ts:247-350 | the bytes a reply uses decide how it is read |
| `Resp.ParseIntText` | src/common/redis/redis-cache.service.ts:282-292 | the integer reader gives back every integer a server prints |
| `Resp.ParseIntMeaning` | src/common/redis/redis-cache.service.ts:282-292 | blanks, at most one sign, the digits up to the first other character |
| `RedisConnection.EverySentSettledOnce` | src/common/redis/redis-cache.service.ts:211-246 | in every run the commands settled followed by those waiting are exactly the commands sent, in order; after termination none waits |
| `RedisConnection.EndRejectsWaiting` | src/common/redis/redis-cache.service.ts:361-376 | in every run each command waiting when the connection ends is rejected with the error it ended with, in order and for good, and promises settled before stay as they are |
| `RedisConnection.ReplySettlesWaiting` | src/common/redis/redis-cache.service.ts:228-246 | in every run the replies of a chunk settle the commands waiting, in order: an error rejects, anything else resolves with its value |
| `RedisConnection.PairedInOrder` | src/common/redis/redis-cache.service.ts:228-246 | while the connection lasts, every reply settles a command, the k-th the k-th, if and only if replies never outran commands |
| `RedisConnection.KthCommandGetsKthReply` | src/common/redis/redis-cache.service.ts:228-246 | however much of a clean reply stream has come, command k is settled with the meaning of reply k |
| `RedisConnection.ServerReadsCommands` | src/common/redis/redis-cache.service.ts:211-227 | the socket carries exactly the commands sent, in order, each readable as its own parts |
| `RedisConnection.DrainedIntoIs` | src/common/redis/redis-cache.service.ts:228-246 | dealing with replies one by one is dealing with all of them at once |
| `RedisClient.ReadLine` | src/common/redis/redis-cache.service.ts:351-360 | the line at an offset, found by a scan, and the offset after it |
| `RedisClient.ParseReply` | src/common/redis/redis-cache.service.ts:247-292 | the reply at an offset, by its tag |
| `RedisClient.ParseBulkString` | src/common/redis/redis-cache.service.ts:293-318 | the bulk string at an offset, a negative length sending the reader back |
| `RedisClient.ParseArrayAt` | src/common/redis/redis-cache.service.ts:319-350 | the item loop computes the specified array result, with its early returns |
| `RedisClient.Client.SendCommand` | src/common/redis/redis-cache.service.ts:211-220 | queued and written, or refused on a closed connection |
| `RedisClient.Client.HandleData` | src/common/redis/redis-cache.service.ts:228-246 | the loop over the buffer does what the specified data step says; it throws exactly on malformed bytes |
| `RedisClient.Client.RejectPending` | src/common/redis/redis-cache.service.ts:371-376 | every waiting command rejected, in order |
| `RedisClient.Client.HandleSocketTermination` | src/common/redis/redis-cache.service.ts:361-370 | closed, buffer emptied, every waiting command rejected |
| `MoneyLines.AcceptedIsCovered` | src/common/posting/money-lines.ts:99-195 | on an accepted voucher that is not a sale, the tender rows of every CASH/BANK ledger and side reach the legs' total |
| `MoneyLines.CoverMeaning` | src/common/posting/money-lines.ts:285-324 | which rows count as cover, by their fields, for which ledger and side, and what the voided row of a re-tender adds |
| `MoneyLines.OwnRowsSuffice` | src/common/posting/money-lines.ts:285-324 | a voucher whose money lines the document's own unclaimed rows already meet gets no row and has no gap |
| `MoneyLines.NewRowsAre` | src/common/posting/money-lines.ts:134-177 | every new row, field by field: the voucher's, the server's, on a short money line, for the shortfall, with the tender picked |
| `MoneyLines.CounterpartMeaning` | src/common/posting/money-lines.ts:399-419 | the party, else the ledger of the first biggest leg on the other side of another ledger, else the line's own |
| `MoneyLines.RefusedIff` | src/common/posting/money-lines.ts:179-195 | refused if and only if it is no sale and a short money line has no tender to pick |
| `MoneyLines.RetireMeaning` | src/common/posting/money-lines.ts:275-282 | exactly the server's rows that the voucher claims are flagged deleted |
| `MoneyLines.KeysFirstNamed` | src/common/posting/money-lines.ts:104-114 | ledgers and sides in the order of the first leg that names them with an amount |
| `MoneyLines.HighestRowNoMeaning` | src/common/posting/money-lines.ts:387-392 | the highest number among the server's rows of the voucher, deleted ones included |
| `MoneyLines.CoveredIffNoGap` | src/common/posting/money-lines.ts:134-177 | a money ledger and side is covered afterwards if and only if no gap was reported there, and then to exactly the larger of need and earlier cover |
| `MoneyLines.AddsExactlyTheShortfall` | src/common/posting/money-lines.ts:134-177 | on every ledger and side what is added is the shortfall and no more |
| `MoneyLines.SecondCallAddsNothing` | src/common/posting/money-lines.ts:99-195 | a second call adds no row and reports the same gaps |
| `MoneyLines.AmendForgetsHistory` | src/common/posting/voucher-posting.service.ts:393-422 | after an amend the server's standing rows are those of a voucher that never had other legs |
| `MoneyLines.RowNumbersFresh` | src/common/posting/money-lines.ts:387-392 | a new row's number exceeds that of every row of the voucher, standing or retired |
| `MoneyLines.GapsMeaning` | src/common/posting/money-lines.ts:145-156 | the gaps are exactly the money lines left short with no tender to pick |
| `MoneyLines.BiggestIsBiggest` | src/common/posting/money-lines.ts:399-419 | the counterpart is the ledger of a biggest leg on the other side |
| `MoneyLines.TenderTable.NeedByKey` | src/common/posting/money-lines.ts:104-114 | the need per ledger and side, keys in order of first appearance |
| `MoneyLines.TenderTable.CounterpartOf` | src/common/posting/money-lines.ts:399-419 | the loop finds the party, else that leg, else the line's own ledger |
| `MoneyLines.TenderTable.CoverMoneyLines` | src/common/posting/money-lines.ts:99-195 | the rows added, the count and the gaps; a refusal exactly when a non-sales voucher has a gap, and then no row stays |
| `MoneyLines.TenderTable.RetireMoneyLineRows` | src/common/posting/money-lines.ts:275-282 | the server's rows of the voucher flagged deleted, all others untouched |
| `MoneyLines.TenderTable.Amend` | src/common/posting/voucher-posting.service.ts:393-422 | the old legs' rows retired and the new legs covered, with the count and the gaps; a refusal leaves the rows as they were |
| `ErrorWording.Registry.WordingFor` | src/common/error-wording/error-wording.ts:100-125 | the look-up over the built maps equals a plain search of the rows: language, exact code, longest prefix with fall-through, field=, key=value, key=*, plain |
| `ErrorWording.Registry.SetErrorWording` | src/common/error-wording/error-wording.ts:60-88 | the maps and prefix lists hold exactly the rows given, prefixes longest first |
| `ErrorWording.SearchMeaning` | src/common/error-wording/error-wording.ts:100-125 | what a look-up finds, by the text of the rows as they are stored: the closest code that speaks, the best kind of variant within it, the language asked for before English, and nothing only if nobody speaks |
| `ErrorWording.OneRowSpeaks` | src/common/error-wording/error-wording.ts:60-77 | a stored code that ends in a star speaks for every code it begins, any other for itself alone |
| `ErrorWording.TwoRowsSpeak` | src/common/error-wording/error-wording.ts:204-228 | of two rows alike the first is taken, but of two plain ones the second |
| `ErrorWording.ScanIsSearch` | src/common/error-wording/error-wording.ts:115-122 | walking the sorted prefix list equals trying the code's own prefixes from the longest down |
| `ErrorWording.OrderOfCodesIrrelevant` | src/common/error-wording/error-wording.ts:60-88 | row lists that agree within each code and language give the same words: the order of codes never matters |
| `ErrorWording.LongestPrefixWins` | src/common/error-wording/error-wording.ts:115-122 | the prefix found is the longest one that has words for the error |
| `ErrorWording.PickIsBest` | src/common/error-wording/error-wording.ts:204-228 | choosing among a code's variants gives the first row of the best rank, or the last plain row |
| `ErrorWording.VariantReadsBack` | src/common/error-wording/error-wording.ts:231-238 | a key and value written out read back, the star as any value |
| `ErrorWording.SortKeeps` | src/common/error-wording/error-wording.ts:79-86 | sorting keeps every prefix once, longest first |
| `BalanceWalk.ClosingFromLastOpening` | src/common/party/party-balance.service.ts:98-134 | a company's result is the last opening that counts plus all legs from its year on, or all legs when none counts |
| `BalanceWalk.ClosingByOpenings` | src/common/party/party-balance.service.ts:124-130 | the same by the opening sets alone: the last that is live, or the first year's even if stale |
| `BalanceWalk.CarryForwardIff` | src/common/party/party-balance.service.ts:98-134 | every year closes at the first opening plus all legs so far if and only if every carry-forward that counts equals the closing before it |
| `BalanceWalk.BalanceOf` | src/common/party/party-balance.service.ts:103-131 | the running/first loop computes the closing |
| `BalanceWalk.Balances` | src/common/party/party-balance.service.ts:98-135 | every company whose closing is not zero, once, with that closing |
| `SqlScanner.StripKeepsTokens` | src/common/configured-grid-sql/configured-grid-sql.service.ts:593-657 | reading the stripped text again gives the same tokens, each comment turned into a blank |
| `SqlScanner.NoCommentLeft` | src/common/configured-grid-sql/configured-grid-sql.service.ts:593-657 | the output opens no comment outside quotes |
| `SqlScanner.LiteralsSurvive` | src/common/configured-grid-sql/configured-grid-sql.service.ts:593-657 | every quoted literal outside comments survives verbatim and in order |
| `SqlScanner.StripIdempotent` | src/common/configured-grid-sql/configured-grid-sql.service.ts:593-657 | stripping twice is stripping once |
| `SqlScanner.LineCommentGoes` | src/common/configured-grid-sql/configured-grid-sql.service.ts:634-643 | a line comment becomes a blank and the line break after it stays |
| `SqlScanner.BlockCommentGoes` | src/common/configured-grid-sql/configured-grid-sql.service.ts:644-653 | a block comment, to its first closing mark or the end of the text, becomes a blank |
| `SqlScanner.LiteralStays` | src/common/configured-grid-sql/configured-grid-sql.service.ts:600-633 | a literal with its quotes doubled inside stays whole, whatever it holds |
| `SqlScanner.OtherStays` | src/common/configured-grid-sql/configured-grid-sql.service.ts:654-656 | any other character stays |
| `SqlScanner.TokensRejoin` | src/common/configured-grid-sql/configured-grid-sql.service.ts:593-657 | tokens are the text, cut up |
| `SqlScanner.StripSqlComments` | src/common/configured-grid-sql/configured-grid-sql.service.ts:593-657 | the index loop with its quote flags computes the specified text |
| `SqlList.PiecesRejoin` | src/common/configured-grid-sql/configured-grid-sql.service.ts:799-854 | the untrimmed pieces rejoin to the input |
| `SqlList.NoCommaLeft` | src/common/configured-grid-sql/configured-grid-sql.service.ts:799-854 | read on its own, each piece has no top-level comma |
| `SqlList.NoCommaInChunk` | src/common/configured-grid-sql/configured-grid-sql.service.ts:799-854 | nor has any trimmed chunk |
| `SqlList.ParenthesesHold` | src/common/configured-grid-sql/configured-grid-sql.service.ts:836-847 | what stands in balanced parentheses stays in one piece, whatever commas it holds |
| `SqlList.LiteralHolds` | src/common/configured-grid-sql/configured-grid-sql.service.ts:808-835 | so does a literal |
| `SqlList.CommaSplits` | src/common/configured-grid-sql/configured-grid-sql.service.ts:844-847 | and a comma outside both ends a piece |
| `SqlList.LoopIs` | src/common/configured-grid-sql/configured-grid-sql.service.ts:805-848 | the loop over the characters, with its literal and depth, cuts the current piece and what is left |
| `SqlList.SplitTopLevelCommaSeparated` | src/common/configured-grid-sql/configured-grid-sql.service.ts:799-854 | the pieces trimmed, a blank last one dropped, and no chunk with a top-level comma |
| `BatchNumbers.GenerateNextBatchNo` | src/common/utils/batch-number.util.ts:41-83 | the result is not among the existing ones ignoring case and blanks, is the first free number from the start, and is found within as many tries as there are entries |
| `BatchNumbers.FirstFree` | src/common/utils/batch-number.util.ts:77-82 | the same for any injective way of writing numbers |
| `BatchNumbers.FormatInjective` | src/common/utils/batch-number.util.ts:37-40 | different numbers of one prefix and width have different keys |
| `BatchNumbers.FirstTryFreeIff` | src/common/utils/batch-number.util.ts:41-83 | whatever numbers exist the first try is free, if and only if the configured prefix holds no line end, the two of Unicode included |
| `BatchNumbers.BrokenPrefixRepeats` | src/common/utils/batch-number.util.ts:21-36 | a prefix broken over lines is never read back, so its first number comes up again |
| `BatchNumbers.HighestIsHighest` | src/common/utils/batch-number.util.ts:62-75 | the series starts beyond every number read in it |
| `BatchNumbers.StartMeaning` | src/common/utils/batch-number.util.ts:52-76 | the search starts exactly one past the first of the highest entries of the series, in its prefix and width; without one at 1, after the configured prefix with two digits or after "B-" with one |
| `BatchNumbers.ConfiguredMeaning` | src/common/utils/batch-number.util.ts:14-20 | a configured prefix, trimmed, gets a dash unless it ends in one of the three separators; a blank one is none |
| `BatchNumbers.ParseMeaning` | src/common/utils/batch-number.util.ts:21-36 | an entry is read as what stands before its trailing digits and the number they make |
| `BatchNumbers.KeysMeaning` | src/common/utils/batch-number.util.ts:46-51 | a key is in use if and only if an entry that is not blank has it |

## Left out

- Adjustment rows written by other modules, without an opposite bill: the log holds only the set-off engine's own pairs.
- Set-off callers: that the invoice's balance row exists on the debit side is taken from them, and that they pass the invoice's own year, so that the once-reversed index, unique within a year, sees every reversal of a row (src/modules/sales/bill/bill-lifecycle.service.ts:1556-1575, src/modules/sales/sale-return/sale-return.service.ts:893-912). They keep transactions out of one invoice by locks of their own, if at all (a bill's amend and cancel hold the bill's header, src/modules/sales/bill/bill-lifecycle.service.ts:2006-2045, and read the balance row without a lock; a sale return locks the invoice's balance row first), which are not modelled; SetOffSerial.Serializable names that as its contract, and SetOffOverlap shows what happens without it.
- SetOffRuns: each read is one statement on the committed books; the wait of an insert for another transaction's uncommitted row of the once-reversed index is not modelled, only that at most one of the two commits.
- SetOffLocks: one order per transaction, known when it starts; rows the callers lock besides, and waits on the once-reversed index.
- Different requests overlapping inside one invoice: for those there are SetOffStanding.CreditsStand and SetOffStanding.RunKeepsStanding, but no condition for two pairs of one credit.
- Rounding: floating-point error inside a sum; amounts are exact reals and only round2's own nudge and rounding are modelled.
- Vouchers: soft deletion of headers, ledger roles, cost centres, party and device columns, and the callers that create drafts beyond the empty header.
- Numbering: the admin screens that write a counter outright, inactive or deleted counter rows, and numbers drawn for a document that is then never inserted in a committed transaction.
- LockOrder: row locks, and collisions between the hashes of different scopes.
- The reset period of a counter: a field of the scope; its derivation from the clock is not modelled.
- Resp: UTF-8 (a buffer is one character per byte), Unicode blanks before a number, numbers beyond 2^53.
- Sockets, TLS, timeouts, authentication and reconnecting: the model is one connection from open to termination.
- MoneyLines: the ledger and tender masters are given functions, amounts are whole paise, and the voided row of a re-tender is read once; deferred covering is not modelled.
- ErrorWording: the `user` block put into response bodies, and choosing the language from a request.
- BalanceWalk: the SQL that sums one year's legs and openings; years arrive in order.
- SqlScanner and SqlList: the other parsers of the grid service.
- BatchNumbers: numbers beyond 2^53, and lower-casing outside ASCII.
- HTTP cache interceptors: the purge is best effort, with a time limit and errors swallowed, so there is no coherence to state.
- Document registers, statutory reports, rights and status logs: one SQL statement each, with no state of their own between calls.
- GST tables, DTO validation, controllers and seeds: fixed tables, field copying and wiring.
