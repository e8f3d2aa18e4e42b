# Verified model of the fulfilment backend

A model, in Dafny 4.11, of the money and document core of a fulfilment backend: quotations
become sales orders, purchase orders, inbound and outbound orders; goods travel in shipments;
receipts, payments and credits settle receivables and payables; returns and dispositions undo.
The project states what these services keep between them and proves it for every input, every
run, and, where the services rely on row locks, every interleaving.

`dafny verify dfyconfig.toml` checks everything.

## What is proved, by file

- `LedgerRows`, `Engine`, `ApCredit`, `CustomerCredit`, `LedgerRuns`: the settlement ledger. The
  running totals that many functions write are a cache of the allocation rows; every operation
  keeps them equal, within bounds, and joined to the right party, over every run. The three
  greedy loops (`Greedy`, with the queries' order in `Ordering`, and what that order means for the
  rows in `Fairness`) are characterised exactly.
  `LedgerService` is the same ledger as a class whose fields the methods update in place, loop by
  loop, proved against those functions.
- `LedgerEntries`, `SupplierPosting`: registering, claiming, billing and posting, read off the columns
  alone: which row is added, what it is matched with, who is paid first, and that nothing else moves.
- `LedgerGuards`, `QuotationGuards`, `ChainGuards`, `ReverseGuards`, `ShipmentGuards`: the converse of
  the invariants. A request is refused only where granting it would break a rule, and granting it
  changes what was asked and no more; and which way rows can move over a whole run.
- `EngineLocks`: the allocation engine run by many transactions at once, lock by lock.
  `LockDiscipline`: locks are kept to the end and cover every write. `EngineAlone`: run alone it is
  the sequential engine.
- `Rounding`, `CreditedValue`, `CancellationCredit`: where returned quantities become credited money.
  `Procurement`: the document chain and the ledger run together, one transaction writing both.
- `RefreshFamilies`: the refresh-token protocol as transactions that interleave between their
  unlocked read, family lock, row lock and commit, beside logouts and the purge that logins run.
  `SoloSessions`: what refresh, logout and login add up to when they meet nobody. `SessionWaits`:
  who can wait for whom. `SessionTimes`: what a wait does to the replay window.
- `CoveredQty`: the materialised `covered_qty` column under concurrent purchase orders.
  `PurchaseEffects`: what a commit achieves, and that only the quota can keep a request from it.
- `Quotations`, `Chain`, `Reversals`, `DocumentService`: the document chain, its quotas, and the
  rule that no unit is reversed twice.
- `Shipments`: container, outbound orders, customs declaration and logistics events.
- `Images`: the reconciliation of a product's images under indexes checked at every row write.
- `LoginLimiter`: the bounded in-process limiter against the plain rule over the full history.

Money is in cents and quantities in thousandths, both integers; times are integers on a clock
that does not go back. Tables are sequences or maps, and a row's id is its position where rows
are never deleted. A refused operation is a rolled-back transaction.

## Where the code and its promises part

Each of these is proved, with the condition under which the promise does hold.

- A quotation payload that names one row id twice keeps one row but adds up both
  (`quotation_service.py:153-209`). The total is the sum of the lines exactly when no priced row
  is written twice.
- `refresh` compares a time it read on arrival (`auth_service.py:338`) and issues by the clock under
  its locks, so a child can be issued long after the replay window. It is issued inside exactly
  when the refresh waited no longer than the window was still open when it arrived.
- Refresh locks family then token, the purge of a login tokens then families, and a DELETE visits
  its rows in no fixed order. A chain of waits that closes passes through a login holding rows it
  purges; two transactions block each other in exactly two ways, and while no token has expired
  when a login begins nothing ever does.
- A caller may send an idempotency key of the shape the automatic credit loop uses, and so keep a
  credit from a receivable (`customer_credit_memo_service.py:703-711`). The loop is maximal
  exactly when no usable credit is barred this way or the others suffice.
- Cancelling a purchase order only looks at goods in transit or received. Goods closed without
  receipt stay under it, still owed, and the sales order line can be bought again.
- Rounding each return up can credit more than the payable. The excess is at most half a cent for
  each line of each return, that bound is reached, and posting is refused exactly when it would
  pass the original. The credit of a whole in-transit cancellation always posts.

The repository's own documentation is older than its code in places; the model follows the code.
In the repository's README.md, lines 170-175 still let an inbound order be edited and cancelled
and open the payable at receipt: the code refuses both and opens the payable with the inbound
order. Its line 225 still sends an issued outbound order back to draft: ISSUED is terminal. The
header of `allocation_engine.py` calls it the only writer of `amount_allocated`: the credit
services write it too, and their writes are part of the ledger here.

## Model

| member | source | states |
|---|---|---|
| LedgerRuns.EveryRunConserves | backend/app/services/allocation_engine.py:105-230 | in every ledger any sequence of operations reaches, each receipt, payment, credit, receivable and payable carries as running total the sum of its active rows, within its amount; credits and matches together stay within the original; active rows join one party and currency, at most one per receipt or payment and account |
| LedgerRuns.StepKeepsInv | backend/app/services/purchase_return_service.py:920-970 | every operation of the five settlement services, refused or not, keeps the whole ledger invariant, the posted-credit total of each payable included |
| LedgerRuns.IdleSourcesHoldNothing | backend/app/services/receipt_service.py:165-206 | an unclaimed receipt, a voided source and a credit that is not posted never hold an active row: what claim, void and the unchecked automatic loop rely on |
| LedgerRuns.RunHistory | backend/app/services/allocation_engine.py:193-230 | whatever runs, allocation rows are only appended and each is reversed at most once, its amount and ends never change |
| LedgerRuns.AllocationKeyActsOnce | backend/app/services/customer_credit_memo_service.py:550-663 | a used idempotency key acts once: after any later operations, the reversal of its row included, it returns the same row for the same request, is a conflict for another, and never changes the ledger |
| LedgerRuns.ReversalKeyActsOnce | backend/app/services/customer_credit_memo_service.py:737-838 | the same for reversal keys |
| LedgerRuns.EveryRunKeepsOneOpenCredit | backend/app/services/customer_credit_memo_service.py:86-94 | in every reachable ledger a disposition order has at most one credit memo that is pending or posted |
| LedgerRows.AttachKeepsInv | backend/app/services/allocation_engine.py:105-117 | adding an active row with both totals keeps the invariant whenever the guards of the writers hold |
| LedgerRows.DetachKeepsInv | backend/app/services/allocation_engine.py:222-230 | reversing an active row with both totals keeps it, with its reversal key unused |
| LedgerRows.HeldUpdate | backend/app/services/allocation_engine.py:222-228 | editing one row moves the sum of its source and of its account by the difference, and no other sum |
| Greedy.GreedyIsUnique | backend/app/services/allocation_engine.py:120-154 | the fill has one meaning: takes within demands, nothing taken after a demand is met in part, total the smaller of budget and demand; and that meaning admits nothing else |
| Greedy.GreedyStops | backend/app/services/allocation_engine.py:120-154 | it ends with the budget spent or every demand met, at most one in part |
| Engine.OpenIdsIsTheQuery | backend/app/services/allocation_engine.py:138-144 | the candidate list is the only list that holds exactly the eligible accounts in the order due date (nulls last), creation, id |
| Engine.AutoAllocateIsGreedy | backend/app/services/allocation_engine.py:120-154 | automatic allocation takes the greedy fill of the open accounts in aging order, with one row per account that gets money, and moves nothing else |
| Engine.AutoAllocateIsMaximal | backend/app/services/allocation_engine.py:120-154 | it ends with the source used up or every eligible account settled |
| LedgerEntries.RegisterIsExact | backend/app/services/receipt_service.py:128-150 | registering books the receipt or payment given, with its kind, party, currency, amount and time, and no other: of its amount exactly the smaller of that and what its party owes in its currency is matched, one row per account that gains, debts due first; without a party nothing is matched and no account changes; it is refused exactly for an amount that is not positive or a payment without supplier |
| LedgerEntries.ClaimIsExact | backend/app/services/receipt_service.py:165-186 | claiming does the same for a live receipt that came without a customer, and for no other source |
| Engine.AutoFromKeepsInv | backend/app/services/allocation_engine.py:146-153 | every turn of the loop, not only the end, keeps the ledger invariant |
| Engine.AutoAllocateKeepsInv | backend/app/services/allocation_engine.py:120-154 | without checking for an existing pair it makes no second one, because its source has nothing matched |
| Engine.ActiveIffMatched | backend/app/services/allocation_engine.py:98-102 | a source has active rows exactly when its running total is positive |
| Engine.ManualAllocateKeepsInv | backend/app/services/allocation_engine.py:157-190 | a manual allocation that passes the guards keeps the invariant, the one-active-pair rule included |
| Engine.ManualThenReverse | backend/app/services/allocation_engine.py:157-230 | a manual allocation uses up the source or the account; its reversal restores both totals, leaves the row as a trace and cannot be repeated |
| ApCredit.PaidAmountsAreHeld | backend/app/services/purchase_return_service.py:349-362 | the active payment rows found, newest first, add up to what the payable says is matched |
| ApCredit.ReleaseIsExact | backend/app/services/purchase_return_service.py:328-414 | the release takes exactly max(0, matched - (original - credited - amount)) from the newest rows on, or is refused because the credit exceeds the original; its other errors cannot occur |
| ApCredit.PostMemoIsExact | backend/app/services/purchase_return_service.py:920-970 | posting a pending credit on an active payable succeeds exactly when credited + amount stays within the original; no other error is reachable |
| ApCredit.AtMostOneSplit | backend/app/services/purchase_return_service.py:380-409 | at most one row is split, and its replacement keeps exactly what was not released |
| ApCredit.ReleasedMoneyIsConserved | backend/app/services/purchase_return_service.py:360-409 | what each payment gets back adds up to what leaves the payable |
| SupplierPosting.PostingIsExact | backend/app/services/purchase_return_service.py:920-970 | in the columns: posting is accepted exactly for a pending credit within the original amount of an active payable; the memo goes live, the payable is credited, exactly what was paid beyond the new debt leaves it, the newest payment rows are reversed first and the last of them leaves at most one row for its rest |
| ApCredit.ReleaseOneKeepsInv | backend/app/services/purchase_return_service.py:371-409 | each turn of the release loop keeps the ledger invariant after each of its two writes |
| ApCredit.ResubmitMemoKeepsInv | backend/app/services/purchase_return_service.py:1010-1066 | a resubmitted credit takes the place of a rejected one: never two open memos for one return |
| CustomerCredit.AutoCreditIsGreedy | backend/app/services/customer_credit_memo_service.py:666-734 | a new receivable uses the posted credits of its customer oldest first as the greedy fill of what it owes, a credit whose automatic key is taken offering nothing |
| LedgerEntries.OutboundIsExact | backend/app/services/outbound_service.py:321-337 | a confirmed outbound order opens exactly one receivable, with its customer, currency, amount and time; in yuan it is at once paid the smaller of its amount and what the customer's posted credits with a free key have left, one row per credit that gives and an older one used up first; all else is unchanged |
| CustomerCredit.AutoCreditIsMaximalExactlyWhen | backend/app/services/customer_credit_memo_service.py:666-734 | the loop takes all that could be taken exactly when no usable credit has its automatic key taken or the others suffice |
| CustomerCredit.TakenKeyBlocksCredit | backend/app/services/customer_credit_memo_service.py:703-711 | from a ledger in order, a manual allocation sent with such a key succeeds, and leaves a usable credit unused and the second receivable open |
| CustomerCredit.CreditAllocateThenReverse | backend/app/services/customer_credit_memo_service.py:575-838 | allocating and reversing a credit restores both totals |
| Procurement.StepKeepsInv | backend/app/services/purchase_return_service.py:293-325 | documents and ledger run together keep: each inbound order has a payable of its own for what it was billed, and each supplier credit is for the total of a completed return, on the payable of its inbound order |
| Procurement.CancellationCreditsAlwaysPost | backend/app/services/purchase_return_service.py:497-586 | whatever the documents and the ledger have done, a pending credit of an in-transit cancellation is for exactly what its inbound order was billed; posting it succeeds, leaves nothing outstanding, reverses every active payment row without a split and gives each payment back all it had paid |
| Procurement.OnlyCreditOfItsPayable | backend/app/services/purchase_return_service.py:219-231 | beside it no other credit on that payable is pending or posted |
| Procurement.InboundsAreNeverRefused | backend/app/services/inbound_order_service.py:296-340 | where the documents take an inbound order, its payable is opened with it, for what it is billed |
| Procurement.CompletionsAreNeverRefused | backend/app/services/purchase_return_service.py:637-762 | where the documents allow a return or cancellation to complete, the ledger takes its credit: no open credit and no inactive payable can stand in the way |
| Procurement.ApprovedCancellationSettles | backend/app/services/purchase_return_service.py:705-762 | an approved cancellation of billed goods, confirmed and posted, leaves the inbound order cancelled and its payable settled |
| CancellationCredit.SecondCreditPostsExactlyWhen | backend/app/services/purchase_return_service.py:338-349 | of two credits asked for on one payable, once the first is posted the second posts exactly when both fit |
| CancellationCredit.HalvesOverdrawThePayable | backend/app/services/purchase_return_service.py:338-349 | credits for the two halves of a one-cent line, a cent each, on a payable without credits: the first posts and the second is refused |
| LedgerService.Ledger.MatchOne | backend/app/services/allocation_engine.py:105-117 | matches min(source rest, account rest) in place, or nothing |
| LedgerService.Ledger.MatchOldest | backend/app/services/allocation_engine.py:120-154 | the allocation loop over the aging list, in place, is the specified automatic allocation |
| LedgerService.Ledger.RegisterSource | backend/app/services/receipt_service.py:128-154 | registering in place: the row appended has the kind, party, currency, amount and time given, and what the automatic allocation matched of it |
| LedgerService.Ledger.AddReceivable | backend/app/services/outbound_service.py:321-337 | the receivable appended has the customer, currency, amount, due date and time given, and what the credits paid of it |
| LedgerService.Ledger.ClaimReceipt | backend/app/services/receipt_service.py:165-186 | claiming in place: guards in order, then the automatic allocation |
| LedgerService.Ledger.VoidLive | backend/app/services/payment_service.py:147-163 | voiding in place: refused while an active row exists |
| LedgerService.Ledger.MatchManually | backend/app/services/allocation_engine.py:157-190 | manual allocation in place, each guard with its own error |
| LedgerService.Ledger.ReverseRow | backend/app/services/allocation_engine.py:193-230 | reversal in place: both totals and the trace of the row |
| LedgerService.Ledger.ReleasePaid | backend/app/services/purchase_return_service.py:328-414 | the release in place, errors and rollback included |
| LedgerService.Ledger.ReleaseNewest | backend/app/services/purchase_return_service.py:360-414 | the loop that counts down what is still to be released |
| LedgerService.Ledger.PostSupplierCredit | backend/app/services/purchase_return_service.py:920-970 | posting in place equals the specified posting, or leaves the ledger as it was |
| LedgerService.Ledger.AllocateCredit | backend/app/services/customer_credit_memo_service.py:575-663 | idempotent allocation of a customer credit in place |
| LedgerService.Ledger.ReverseCredit | backend/app/services/customer_credit_memo_service.py:737-838 | idempotent reversal in place |
| LedgerService.Ledger.UseCredits | backend/app/services/customer_credit_memo_service.py:666-734 | the loop over posted credits in place |
| EngineLocks.EveryInterleavingConserves | backend/app/services/allocation_engine.py:8-11 | with register, claim, void, manual allocation and reversal interleaved step by step under row locks, the ledger invariant holds in every intermediate state and no lock is held twice |
| EngineLocks.LocksAreTakenUpwards | backend/app/services/allocation_engine.py:125-154 | whatever a transaction holds is below the lock it asks for next: source, then accounts by age, then the allocation row |
| EngineLocks.NoWaitCycle | backend/app/services/allocation_engine.py:8-11 | however many transactions run, no chain of waits returns to its start |
| EngineLocks.SomeoneCanMove | backend/app/services/allocation_engine.py:83-87 | a set of open transactions always has one that is not blocked and whose next step advances it |
| EngineLocks.ReversedExactlyOnce | backend/app/services/allocation_engine.py:193-230 | once one reversal of a row has written, every other reversal of it, whenever it gets the row, is refused and changes nothing |
| EngineLocks.FirstReversalMovesTheTotals | backend/app/services/allocation_engine.py:222-230 | the first one lowers both totals by the amount of the row |
| EngineLocks.FillEndsMaximal | backend/app/services/allocation_engine.py:120-154 | whatever runs beside it, an automatic allocation stops only with its source used up, or after the whole list it was given with every account of it settled or voided, and it stays so until it commits |
| EngineLocks.AutoAllocationEndsMaximal | backend/app/services/allocation_engine.py:120-154 | the same from the registration or claim that read the list, for all of that list |
| LockDiscipline.LocksAreHeldToTheEnd | backend/app/services/allocation_engine.py:83-87 | no step of anybody takes a lock from a transaction before it ends |
| LockDiscipline.OnlyLockedRowsAreWritten | backend/app/services/allocation_engine.py:105-117 | whoever changes a source, an account or an allocation row has locked it |
| Fairness.DueFirstIsSettledFirst | backend/app/services/allocation_engine.py:138-144 | an account gets money from automatic allocation only if every eligible account with an earlier due date (none last), or the same and created earlier, or the same and a smaller id, is settled |
| Fairness.LastPaidIsReleasedFirst | backend/app/services/purchase_return_service.py:349-362 | a payment row is given back only if every later one of the payable is |
| Fairness.OldestCreditIsUsedFirst | backend/app/services/customer_credit_memo_service.py:680-700 | a new receivable takes money from a credit only if every usable older one whose key is free is used up |
| EngineAlone.AloneIsSequential | backend/app/services/allocation_engine.py:105-230 | run alone, register, claim, void, manual allocation and reversal do step by step under locks what the sequential functions do at once, refusals included |
| EngineAlone.SequentialRunsAreInterleavings | backend/app/services/allocation_engine.py:105-230 | every sequential run of the engine is one of its interleavings |
| EngineAlone.FillAlone | backend/app/services/allocation_engine.py:146-153 | the fill loop that takes its account locks one by one ends where the sequential loop does |
| LedgerGuards.AttachIsExact | backend/app/services/allocation_engine.py:105-117 | a new active row keeps the ledger in order if and only if it joins live money to a debt of its party and currency, within what both have left, on an unused pair or key |
| LedgerGuards.ManualAllocateIsExact | backend/app/services/allocation_engine.py:157-190 | a manual allocation is refused only where it would break a rule or the account is voided, and otherwise takes all that both sides allow |
| LedgerGuards.ReverseIsExact | backend/app/services/allocation_engine.py:193-230 | exactly the active rows of receipts, or of payments, can be reversed there; both sides get the amount back and the row keeps its trace |
| LedgerGuards.CreditAllocateIsExact | backend/app/services/customer_credit_memo_service.py:575-663 | the same for a customer credit under a fresh key, for the amount asked or all there is |
| LedgerGuards.CreditReverseIsExact | backend/app/services/customer_credit_memo_service.py:737-838 | under a fresh reversal key exactly the active rows of credits can be reversed, with a reason; both sides get the amount back |
| LedgerGuards.AllocationErrorsAreTrue | backend/app/services/allocation_engine.py:157-190 | an allocation is refused for a reason that holds: the error names a rule the request breaks |
| LedgerGuards.CreditErrorsAreTrue | backend/app/services/customer_credit_memo_service.py:550-663 | the same for the allocation of a credit; under a used key the only error is the conflict |
| LedgerGuards.VoidSourceIsExact | backend/app/services/receipt_service.py:191-206 | a live receipt or payment can be voided exactly while no active row rests on it |
| LedgerGuards.VoidCreditIsExact | backend/app/services/customer_credit_memo_service.py:841-880 | the same for a customer credit in any state but voided |
| LedgerGuards.SupplierMemosAreExact | backend/app/services/purchase_return_service.py:973-1066 | a supplier credit is opened, or reopened after a rejection, exactly when its return has none open, and rejected exactly while pending; nothing else changes |
| LedgerGuards.CustomerCreditsAreExact | backend/app/services/customer_credit_memo_service.py:221-402 | a customer credit is opened, with its origin, customer, amount and maker, exactly when its disposition is done and has none open; its maker cannot post it, anyone else can, once |
| LedgerGuards.CreditsAreDecidedOnce | backend/app/services/customer_credit_memo_service.py:309-402 | exactly a pending credit is posted, by someone other than its maker, or rejected, and never decided again |
| LedgerGuards.ResubmitCreditIsExact | backend/app/services/customer_credit_memo_service.py:405-492 | a rejected credit is asked for again as a new one, with its origin and party, exactly when none is open |
| LedgerGuards.OnlyAnotherPersonPosts | backend/app/services/customer_credit_memo_service.py:309-371 | the one step of any service that makes a credit live is a posting by someone other than its maker |
| LedgerGuards.AccountsOnlyMoveForward | backend/app/services/allocation_engine.py:8-11 | over any run no receivable or payable is lost, its party, currency, amount and dates never change, and credits on it only grow |
| LedgerGuards.RowsOnlyMoveForward | backend/app/services/allocation_engine.py:8-11 | over any run no source or memo is lost; amount, currency, origin and maker never change, a party is set at most once, and rejected, voided or posted rows never go back |
| RefreshFamilies.RunKeepsInv | backend/app/services/auth_service.py:302-405 | under every interleaving of refresh, logout, login with purge and password change: the CHECK and FOREIGN KEY rules of both tables, exclusive row locks, and the shape of the chains |
| RefreshFamilies.RevokedFamilyMintsNothing | backend/app/services/auth_service.py:81-93 | once a revocation has committed, no step of any transaction adds a token to the family, and it stays shut |
| RefreshFamilies.ShutFamilyHasNoRefreshInFlight | backend/app/services/auth_service.py:350-359 | after any later steps, no refresh of a token of a family once shut holds the family lock |
| RefreshFamilies.LogoutShutsTheFamily | backend/app/services/auth_service.py:486-494 | a logout that gets the row leaves the family shut, whoever else revoked or purged it, and keeps the first revocation time |
| RefreshFamilies.RefreshMintsExactlyWhen | backend/app/services/auth_service.py:368-399 | under its locks a refresh mints exactly when its token is unexpired and unused or first used no more than 60 s before it was presented, and revokes exactly when the token is unexpired and was used earlier than that |
| RefreshFamilies.ReplayShutsTheFamily | backend/app/services/auth_service.py:374-389 | a token presented after the window shuts its family for good and mints nothing |
| RefreshFamilies.RotationWrites | backend/app/services/auth_service.py:392-399 | a rotation adds one unused child to the parent family, which outlives the parent, and marks the parent only on its first use |
| RefreshFamilies.UsedAtIsWrittenOnce | backend/app/services/auth_service.py:396-399 | a used row never changes again until it is purged |
| RefreshFamilies.ChainEndsUnused | backend/app/services/auth_service.py:396-399 | successor pointers stay in the family, go strictly forward and end at an unused token that outlives the start |
| RefreshFamilies.ChildrenAreWithinGrace | backend/app/services/auth_service.py:371-390 | every child was presented within the grace of its parent's first use |
| SessionTimes.IssuedWithinGraceExactlyWhen | backend/app/services/auth_service.py:338-399 | from its arrival to its commit, whatever runs beside it: a refresh mints exactly when it arrived unexpired and within the window, however long it waited, and its child is issued within the window exactly when the wait was no longer than the window was still open on arrival |
| SessionTimes.NeverLateWithoutAWait | backend/app/services/auth_service.py:338-399 | a refresh that has its locks in the second it arrives is never late |
| SessionTimes.ChildCanBeIssuedAfterTheGrace | backend/app/services/auth_service.py:338-399 | for every arrival within the window and every w, a run from the empty tables on which a second refresh of a token waits w seconds and its child is issued that much later |
| SessionTimes.TheWaitIsForTheFamily | backend/app/services/auth_service.py:350-359 | on that run the second refresh waits, from the first of those seconds to the last, for the family row the first one holds |
| SessionTimes.FirstChildCanBeIssuedLate | backend/app/services/auth_service.py:338-399 | the same for the first use of a token, for every w |
| RefreshFamilies.PurgeDeletesOnlyTheDead | backend/app/services/auth_service.py:96-107 | only expired tokens and families left empty are deleted, and no row loses its family or a used row its successor |
| RefreshFamilies.NoSuccessorDangles | backend/alembic/versions/0033_refresh_tokens.py:54-66 | ON DELETE SET NULL never has anything to null, so the pairing CHECK holds through every purge |
| SessionWaits.CyclesPassThroughAPurge | backend/app/services/auth_service.py:81-107 | in every state the services reach, a chain of waits that returns to its start passes through a login that holds rows it purges: refreshes, logouts and password changes among themselves never close one |
| SessionWaits.TwoWaitExactlyWhen | backend/app/services/auth_service.py:96-107 | two transactions wait for each other exactly when a refresh between its locks meets a login that has deleted its token and still wants its family, or two logins in one DELETE each hold a row the other wants |
| SessionWaits.UnpurgedRunsNeverClose | backend/app/services/auth_service.py:96-107 | on a run where no token has expired whenever a login begins, no chain of waits ever closes |
| SessionWaits.RefreshAndPurgeCanWaitForEachOther | backend/app/services/auth_service.py:96-107 | a schedule from the empty tables on which a refresh and a login wait for each other |
| SessionWaits.TwoLoginsCanWaitForEachOther | backend/app/services/auth_service.py:96-107 | one on which two logins do, deleting two expired tokens in opposite orders |
| SoloSessions.SoloLogin | backend/app/services/auth_service.py:96-107 | a login that meets nobody leaves exactly the unexpired tokens, untouched, exactly the families that have one, and one new token in one new family |
| SoloSessions.SoloRefresh | backend/app/services/auth_service.py:302-405 | a refresh that meets nobody is refused, shuts the family, or rotates, exactly as the five steps of the function say, and writes nothing else |
| SoloSessions.SoloLogout | backend/app/services/auth_service.py:463-494 | a logout that meets nobody revokes a live family and does nothing to one already revoked |
| CoveredQty.EveryRunKeepsCacheExact | backend/app/services/purchase_order_service.py:114-136 | with creations, saves, confirmations and cancellations interleaved under row locks, every commit leaves covered_qty equal to its recomputation and within the ordered quantity, on freed lines too |
| CoveredQty.CommitKeepsCache | backend/app/services/purchase_order_service.py:261-295 | a commit keeps the column exact on every line, locked by it or not |
| CoveredQty.FreedLineFits | backend/app/services/purchase_order_service.py:348-364 | a line an edit gives up keeps a recomputed value within its quantity |
| CoveredQty.QuotaRefusesExactly | backend/app/services/purchase_order_service.py:156-172 | the quota check refuses exactly what the commit would push past the quantity |
| CoveredQty.ConfirmNeverRejects | backend/app/services/purchase_order_service.py:373-388 | the re-check of a confirmation never refuses |
| CoveredQty.ProgressForPage | backend/app/services/sales_order_service.py:229-248 | the counting loop over the column gives the badge the recomputation gives |
| CoveredQty.BadgesAgree | backend/app/services/sales_order_service.py:251-260 | the SQL CASE, the page loop and the recomputed detail show one badge in every reachable state |
| CoveredQty.BadgeMeans | backend/app/services/purchase_order_service.py:88-111 | fully ordered exactly when there are lines and each is covered to its quantity, not ordered exactly when nothing is covered |
| PurchaseEffects.CommitTakesEffect | backend/app/services/purchase_order_service.py:415-432 | whatever runs beside it, a commit changes its own purchase order as asked, no other, and moves the column of every line by exactly what the order now counts less what it did |
| PurchaseEffects.StartsExactlyWhenAsked | backend/app/services/purchase_order_service.py:261-412 | a transaction starts exactly for a valid request on an order nobody else is at, a cancellation only while no inbound order is active |
| PurchaseEffects.OnlyCommitsWrite | backend/app/services/purchase_order_service.py:123-136 | nothing is written before a commit: a request refused or given up leaves no trace |
| PurchaseEffects.TakesEffectExactlyWhenItFits | backend/app/services/purchase_order_service.py:261-432 | with nothing else open, some run carries a valid request through exactly when its lines fit the quota; a confirmation or cancellation can always be carried through |
| PurchaseEffects.SoloJobFinishes | backend/app/services/purchase_order_service.py:114-136 | locking line by line, checking, refreshing and committing never gets stuck alone |
| Quotations.EveryRunKeepsOrdersAndQuotesInStep | backend/app/services/sales_order_service.py:46-89 | in every reachable state a quotation is CONVERTED exactly when one active order refers to it, which repeats its lines and total, and every line any order refers to still exists |
| Quotations.SaveKeepsInv | backend/app/services/quotation_service.py:130-209 | a reconciling save, with its refusals, keeps lines that any order refers to |
| Quotations.CancelNeverBreaks | backend/app/services/sales_order_service.py:180-192 | the RuntimeError of the cancellation is unreachable, and the cancellation succeeds exactly when the order is confirmed and nothing hangs on it |
| Quotations.ConvertThenCancel | backend/app/services/sales_order_service.py:46-204 | conversion bars every edit, unlock, void and second conversion; cancelling gives the quotation back unchanged and convertible again |
| Quotations.SavedTotalIsTheSumExactlyWhen | backend/app/services/quotation_service.py:144-209 | the stored total is never below the sum of the line totals, and equals it exactly when the payload does not write a priced row twice |
| Quotations.CleanRunsKeepSums | backend/app/services/quotation_service.py:212-266 | while no save does that, every quotation and sales order total is the sum of its lines |
| Quotations.RowNamedTwiceInflatesTheTotal | backend/app/services/quotation_service.py:153-159 | a payload that names one row twice, with two products, leaves one row and the total of both |
| Quotations.BookService.Reconcile | backend/app/services/quotation_service.py:180-209 | the reconciling loop in place: rows overwritten or added while the total runs along (SaveIsExact says what it leaves) |
| Quotations.BookService.SaveQuote | backend/app/services/quotation_service.py:212-266 | the whole save in place, refusals included |
| QuotationGuards.SaveIsExact | backend/app/services/quotation_service.py:144-266 | a save is accepted exactly for a new quotation or a draft, with different sellable products, known row ids and no row dropped that an order refers to; then each new line is on a row of its own, numbered on in the order given, each named row is as the last entry naming it says, product, price and quantity, there are no other rows, the total is that of the payload, and every other quotation and order is unchanged |
| QuotationGuards.SaveErrorsAreTrue | backend/app/services/quotation_service.py:144-179 | a save is refused for a reason that holds |
| Quotations.BookService.ConvertQuote | backend/app/services/sales_order_service.py:46-89 | the conversion in place |
| Quotations.BookService.CancelSalesOrder | backend/app/services/sales_order_service.py:113-203 | the cancellation in place, without a branch for the RuntimeError |
| Quotations.LockThenUnlock | backend/app/services/quotation_service.py:269-326 | locking can be undone without a trace, opens the way to conversion and closes it to edits; a void quotation is final |
| QuotationGuards.OrderStepsAreExact | backend/app/services/sales_order_service.py:46-203 | exactly a locked quotation is converted, into one confirmed order with its lines and total; exactly a confirmed order with nothing hanging on it is cancelled; nothing else changes |
| Quotations.NoRunOrdersNothing | backend/app/services/quotation_service.py:285-300 | no run locks, converts or orders a quotation without lines |
| Chain.StepKeepsChain | backend/app/services/inbound_order_service.py:311-340 | every document operation keeps: live purchase orders under confirmed sales orders, arriving inbound orders under confirmed purchase orders, both quotas, and payables equal to the rounded sum of their lines |
| Chain.OnBookKeepsChain | backend/app/services/sales_order_service.py:130-155 | a sales order cannot be cancelled from under a purchase order |
| Chain.SavePoKeepsChain | backend/app/services/purchase_order_service.py:321-370 | an edited draft stays within the quota of every line, the ones it leaves included |
| Chain.CreateInboundKeepsChain | backend/app/services/inbound_order_service.py:165-189 | a new inbound order stays within the purchase order lines |
| ChainGuards.CancelOrderIsExact | backend/app/services/sales_order_service.py:113-203 | a confirmed sales order can be cancelled exactly while nothing live was bought for it, and then nothing but its status and its quotation changes |
| ChainGuards.CreatePoIsExact | backend/app/services/purchase_order_service.py:261-295 | a purchase order is accepted exactly when adding it keeps the chain in order |
| ChainGuards.SavePoIsExact | backend/app/services/purchase_order_service.py:321-370 | an edit of a draft is accepted exactly when its new lines keep the chain in order |
| ChainGuards.ConfirmPoIsExact | backend/app/services/purchase_order_service.py:373-388 | every draft, and nothing else, can be confirmed |
| ChainGuards.CancelPoIsExact | backend/app/services/purchase_order_service.py:391-412 | a purchase order can be cancelled exactly when no arriving goods would be left under it |
| ChainGuards.CreateInboundIsExact | backend/app/services/inbound_order_service.py:311-340 | an inbound order is accepted exactly when adding it keeps the chain in order |
| ChainGuards.ReceiveThenUnreceive | backend/app/services/inbound_order_service.py:358-440 | a receipt is undone without a trace exactly when no disposition waited for the goods |
| ChainGuards.ReceiptsAreExact | backend/app/services/inbound_order_service.py:358-440 | goods in transit are received exactly while no return is open, into held stock where a disposition waits, and taken back exactly while neither a return nor a disposition stands |
| ChainGuards.RejectionFreesTheUnits | backend/app/services/purchase_return_service.py:589-702 | a pending return is decided once; a rejection gives back exactly the units it held, approval and completion none |
| ChainGuards.ReturnTakesItsUnits | backend/app/services/purchase_return_service.py:417-494 | a new return takes its units from what is left, to the unit, and from nothing else |
| ReverseGuards.CreateReturnIsExact | backend/app/services/purchase_return_service.py:417-494 | a return is accepted exactly when its entries name different lines and it reverses no unit a second time; its lines are its entries, its total their cost |
| ReverseGuards.CreateCancellationIsExact | backend/app/services/purchase_return_service.py:497-586 | an in-transit inbound order is cancelled as a whole exactly when that reverses no unit a second time, for what was billed |
| ReverseGuards.ReturnStepsAreExact | backend/app/services/purchase_return_service.py:589-762 | exactly a pending return is approved or rejected, exactly an approved one completed, a cancellation with its inbound order; nothing else changes |
| ReverseGuards.DisposeIsExact | backend/app/services/inventory_disposition_service.py:213-369 | a disposition is accepted exactly for goods in transit or received, free of returns, dispositions and outbound orders, with something left; it takes all that is left of every line at cost; received goods are held at once, goods in transit are closed with their inbound order or awaited as asked, and nothing else changes |
| ReverseGuards.ClosedIsNeverReceived | backend/app/services/inventory_disposition_service.py:341-345 | over any run an inbound order closed without receipt stays as it is and is never received |
| ReverseGuards.WaitingGoodsArriveHeld | backend/app/services/inbound_order_service.py:358-396 | over any run a disposition waits with what it took until its goods come, and they can be received, into held stock, and not sent back from there |
| Reversals.QuantitiesAreBoundedDownTheChain | backend/app/services/inbound_order_service.py:152-180 | in every reachable state what arrives for a sales order line is within what is ordered is within what was sold, and arriving goods hang under confirmed orders |
| Reversals.CancelPoLeavesClosedInbounds | backend/app/services/purchase_order_service.py:391-412 | cancelling a purchase order leaves no live inbound order behind exactly when none was closed without receipt |
| Reversals.ShelvedIsConsistent | backend/app/services/inbound_order_service.py:152-160 | the state that shows it is one the invariants admit |
| Reversals.ClosedGoodsCanBeBoughtAgain | backend/app/services/inbound_order_service.py:152-160 | otherwise the line can be bought again on top of goods closed without receipt |
| Reversals.NoUnitIsReversedTwice | backend/app/services/purchase_return_service.py:260-290 | in every reachable state pending, approved, returned and disposed units of an inbound line are within what came in, and make up all of it once the order is disposed of |
| Reversals.CancellationCreditsTheWholePayable | backend/app/services/purchase_return_service.py:497-586 | a whole in-transit cancellation credits exactly the payable and is the only reversal of its inbound order; once approved only an outbound order can stop it |
| Reversals.AcceptedEntries | backend/app/services/purchase_return_service.py:260-290 | the payload loop accepts exactly lists of different known lines within what is left, and reports the first that is not |
| Reversals.DisposeKeepsReverse | backend/app/services/inventory_disposition_service.py:213-369 | a disposition takes all that is left of every line, once |
| Reversals.ReceiveKeepsReverse | backend/app/services/inbound_order_service.py:358-396 | receiving holds a waiting disposition and keeps every line counted once |
| DocumentService.Documents.PayableAmount | backend/app/services/inbound_order_service.py:285-293 | rounds line by line, in any line order |
| DocumentService.Documents.CreateInboundOrder | backend/app/services/inbound_order_service.py:311-340 | creates the inbound order and its payable, guards in order |
| DocumentService.Documents.ReceiveInbound | backend/app/services/inbound_order_service.py:358-396 | receives it, with the waiting disposition |
| DocumentService.Documents.BuildLinePayloads | backend/app/services/purchase_return_service.py:260-290 | the loop refuses at the first bad line, otherwise prices and adds up |
| DocumentService.Documents.CreatePurchaseReturn | backend/app/services/purchase_return_service.py:417-494 | creates a return in place |
| DocumentService.Documents.ConfirmInTransitCancellation | backend/app/services/purchase_return_service.py:705-762 | cancels the inbound order and completes the cancellation |
| DocumentService.Documents.CollectLeft | backend/app/services/inventory_disposition_service.py:264-294 | the loop over all inbound lines collects what is left and its cost |
| DocumentService.Documents.CreateDisposition | backend/app/services/inventory_disposition_service.py:213-369 | creates a disposition in place: held, closed with its inbound order or awaiting the goods, as the order stands and the handling asks |
| DocumentService.Documents.CancelPurchaseOrder | backend/app/services/purchase_order_service.py:391-412 | cancels unless an inbound order is in transit or received |
| Rounding.MoneyIsNearest | backend/app/services/purchase_return_service.py:69-71 | the rounding is the nearest cent, the upper of two equally near, and no other |
| Rounding.SplitStaysWithinHalfACentEach | backend/app/services/purchase_return_service.py:69-71 | a line credited in n pieces is credited within n/2 cents of the whole line |
| Rounding.HalvesReachTheBound | backend/app/services/purchase_return_service.py:69-71 | for every n some split reaches that bound |
| CreditedValue.ReturnsStayWithinHalfACentEach | backend/app/services/purchase_return_service.py:260-290 | in every reachable state, what all the returns of an inbound order are credited is above its payable by at most half a cent for each line of each return |
| Shipments.EveryRunIsSafe | backend/app/services/shipment_service.py:131-265 | over all runs: sealed cargo exists and is issued, customs only under seal, events only at sea and not before departure, dates set exactly in their states, one arrival that ends the timeline |
| Shipments.StepKeepsInv | backend/app/services/outbound_service.py:136-162 | every operation of the five state machines keeps the safety invariant, one draft per shipment and sales order and one active declaration number included |
| Shipments.CorrectionsUndo | backend/app/services/shipment_service.py:197-265 | unload and undepart undo load and depart, and are open exactly until a declaration or an event hangs on the shipment |
| Shipments.UpdateEventKeepsInv | backend/app/services/logistics_event_service.py:73-146 | a corrected event still fits its timeline |
| Shipments.CreateDeclKeepsInv | backend/app/services/customs_service.py:120-144 | a new declaration is the only active one of its shipment and of its number |
| Shipments.LatestAgrees | backend/app/services/logistics_event_service.py:177-200 | the ordered-list and DISTINCT ON derivations of the current status agree on any events |
| Shipments.LatestHasTheLastDate | backend/app/services/logistics_event_service.py:177-190 | the row they pick has the latest date of its shipment |
| Shipments.LatestTypeOf | backend/app/services/logistics_event_service.py:193-200 | the scan of the ordered list computes the list derivation |
| Shipments.YardService.LoadShip | backend/app/services/shipment_service.py:157-194 | loading in place: empty and draft refusals with the list of drafts |
| Shipments.YardService.UndepartShip | backend/app/services/shipment_service.py:241-265 | the departure correction in place |
| Shipments.YardService.CorrectEvent | backend/app/services/logistics_event_service.py:120-146 | correcting an event in place, guards in order; a field that is not given stays |
| Shipments.YardService.FitsTimeline | backend/app/services/logistics_event_service.py:73-95 | the terminal-arrival test, leaving out the event under correction |
| ShipmentGuards.ShipGuardsAreExact | backend/app/services/shipment_service.py:131-265 | loading, cancelling, unloading and undeparting are accepted exactly when legal from the state and safe afterwards, departing always; nothing but the shipment changes |
| ShipmentGuards.CreateOutIsExact | backend/app/services/outbound_service.py:191-223 | an outbound order is accepted exactly when adding its draft keeps the yard safe |
| ShipmentGuards.DraftsAreAlwaysDecidable | backend/app/services/outbound_service.py:267-384 | given stock and a confirmed order every draft, and nothing else, can be issued or cancelled: the test for an open shipment never refuses |
| ShipmentGuards.CreateDeclIsExact | backend/app/services/customs_service.py:120-144 | a declaration is accepted exactly when adding it keeps the yard safe |
| ShipmentGuards.UpdateDeclIsExact | backend/app/services/customs_service.py:147-184 | a correction of an active declaration is accepted exactly when it keeps the yard safe |
| ShipmentGuards.CreateEventIsExact | backend/app/services/logistics_event_service.py:98-117 | the departure date, the single arrival and the order around it are together exactly what keeps a timeline in order |
| ShipmentGuards.UpdateEventIsExact | backend/app/services/logistics_event_service.py:120-146 | a correction of the milestone, the date, both or neither: what is not given stays, and it is accepted exactly when the event so corrected is an active one of the shipment and fits the timeline |
| ShipmentGuards.WithdrawalsReopen | backend/app/services/logistics_event_service.py:149-163 | a withdrawn declaration frees its number and its shipment, a withdrawn event can be entered again and frees the correction of the departure if it was the last |
| ShipmentGuards.FinalRowsStay | backend/app/services/outbound_service.py:357-384 | over any run no row is lost, issued and cancelled outbound orders, cancelled shipments and withdrawn rows never change again, and no outbound order changes its shipment |
| Images.ProductImages.ReconcileSpu | backend/app/services/image_service.py:72-109 | no row write along the way violates a unique index; afterwards the product shows exactly the wanted images, kept keys keep their rows, other rows are untouched, and what is returned is what was there and is not wanted |
| Images.ProductImages.DemoteOthers | backend/app/services/image_service.py:91-95 | the demotion loop |
| Images.InsertionIsClean | backend/app/services/image_service.py:97-102 | a new image, the MAIN included, can be inserted once the others have stepped down |
| Images.PromotionIsClean | backend/app/services/image_service.py:104-108 | the wanted MAIN can step up once the others have stepped down |
| Images.ProductImages.CollectOrphans | backend/app/services/image_service.py:137-155 | of the keys handed over, exactly those no row names leave the store, save those whose deletion fails |
| LoginLimiter.Limiter.RecordFailure | backend/app/services/rate_limit.py:62-80 | never more than 10,000 buckets; the answer is the plain rule's for every key that was never given up, and a key is given up only when the cap is reached by live buckets |
| LoginLimiter.Limiter.IsLocked | backend/app/services/rate_limit.py:40-45 | the answer is the plain rule's for such keys |
| LoginLimiter.Limiter.Evict | backend/app/services/rate_limit.py:52-60 | dropping expired buckets is invisible; only a live bucket can be given up, and only if all that remain are live |
| LoginLimiter.Limiter.MakeRoom | backend/app/services/rate_limit.py:57-60 | the bucket nearest to its end goes |
| LoginLimiter.FailureAgrees | backend/app/services/rate_limit.py:69-80 | a pruned bucket trips exactly when the full history does, and they agree afterwards |
| LoginLimiter.ExpiredIsNew | backend/app/services/rate_limit.py:47-56 | a bucket past its time cannot be told from a missing one |
| LoginLimiter.TripsExactlyWhen | backend/app/services/rate_limit.py:62-80 | a failure locks exactly when no lock runs and the limit-th most recent counted failure, this one included, falls in the window |
| LoginLimiter.OneMoreFailure | backend/app/services/rate_limit.py:62-80 | a failure changes nothing while its key is locked, locks it for the time of the rule if it trips, and is counted otherwise |
| LoginLimiter.LockRunsItsTime | backend/app/services/rate_limit.py:62-80 | failures during a lock neither prolong it nor count |
| LoginLimiter.FiveFailuresInAMinute | backend/app/services/rate_limit.py:1-36 | the fifth failure locks for five minutes exactly when all five fall within one minute |

## Left out

- LedgerRuns.EveryRunConserves: no service of the repository voids an account, so no operation of the model does; the guards that test for it are kept.
- ApCredit.ResubmitMemoKeepsInv: the test that the payable still has the memo's supplier and currency is not modelled, because the memo copied them from that payable and neither changes.
- LedgerGuards.AllocationErrorsAreTrue: says that the error raised holds, not which of several comes first; that order is the methods'.
- LedgerEntries.OutboundIsExact: due date and amount are inputs; the service leaves the date empty and adds the amount up from the order's lines.
- EngineLocks.NoWaitCycle: covers the receipt and payment engine only; lock orders elsewhere are not uniform, as SessionWaits.RefreshAndPurgeCanWaitForEachOther shows. The sequence row that numbers a new receipt, locked before all others, is not modelled.
- EngineLocks.EveryInterleavingConserves: a crash between a transaction's writes and its commit is not a step; refusals all come before the first write.
- RefreshFamilies.RunKeepsInv: token signatures, the user's status and the token version can only refuse more and are not modelled; row ids stand for the order of commits; the origin of a token is history the tables do not hold.
- SessionWaits.TwoWaitExactlyWhen: a DELETE is taken to visit its rows in any order, since SQL fixes none; foreign-key locks are not modelled.
- Procurement.StepKeepsInv: supplier and currency of a payable are inputs, not read from the purchase order; receivables and outbound orders are not joined to the documents.
- CoveredQty.EveryRunKeepsCacheExact: the sales order header lock that creation and saving also take is not needed for it and not modelled; any order of taking the line locks is allowed, not only the ascending one.
- Chain.StepKeepsChain: each operation is one transaction; its internal row locks are modelled for the covered column only. Supplier and customer status, edit-conflict stamps and text fields are not modelled.
- Shipments.EveryRunIsSafe: operations are atomic here too; attachments, text fields and edit-conflict stamps are not modelled.
- Images.ProductImages.ReconcileSpu: within one step the rows are written in the order of the request, which is arbitrary; the limits on the number of images play no part.
- LoginLimiter.Limiter.RecordFailure: whole seconds instead of floating-point time; threads are serialised by the limiter's own lock.
- The concurrent protocols (EngineLocks, RefreshFamilies, CoveredQty) are state machines on values: a class would not show the interleaving. Purchase order, shipment status and customs operations without a loop are functions only.
- Stock balances and the stock ledger: they enter as a yes-or-no guard.
- reconcile_sku_images: the same loops without a MAIN image, which adds no difficulty.
- Receipt progress of purchase orders, display derivations, lists, pagination and search: shallow.
- Account lockout counters on the user row, password checks, access tokens.
- Numbering, audit rows, redaction, roles, catalogue, attachments, object storage and the frontend.
- Quotation saves that swap products between existing rows, which the database may refuse for a moment: ORM flush order is below the model.
