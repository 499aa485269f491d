# Trustee bank money engine: verified model

The platform of a trustee bank keeps an append-only double-entry ledger. Balances are never stored: they are summed
from postings. Several status machines write to the ledger, and reserve arithmetic over its balances decides when a
mint may be authorised. This project models that engine in Dafny 4.11 and proves what it is for.

`dafny verify dfyconfig.toml` checks the whole project.

## What is modelled

- **Reserve and mint system.** `ReserveBook` gives the tables and, for each service call, the tables after it and the
  exception it ends with. `ReserveInvariants` proves the invariant that links posting sums, statuses and the ledger
  trace of each record. `FullReserve` proves that the reserve covers the supply over every run; `StaleFeed` shows why
  the assumption on the liability feed is needed. `MintClearance` says what a yes of the mint guard means in terms of
  rows, clock and environment; `ReserveEffects` says of every call when it succeeds, which rows it writes and which
  balances it moves. `ReserveLifecycles` and `ReserveProvenance` say what a record has been
  through. `ReserveServices` and `MintServices` are the services as classes over a store, each method proved against
  its specification.
- **PayKH tenant system.** `PaykhBook`, `PaykhInvariants`, `PaykhTotals`, `PaykhAnswers`, `PaykhPayables`,
  `PaykhBacking`, `PaykhProvenance`, `PaykhEffects` (the outcome of every call), `PaykhReconciliation` and
  `PaykhServices`: payment orders, program funds, loyalty liabilities and settlements on one ledger, where the tenant
  stands in the place of the program.
- **Ledger and arithmetic.** `Moneys`, `Journal`, `Entries`, `Ledger`, `LedgerMoves`, `Traces`,
  `ReserveCalculation`, `MintGuard`; `Sums`, `Arithmetic` and `Results` are shared helpers.
- **Webhook outbox.** `Outbox`: batch delivery with retries, dead letters and replay.
- **Codecs and policies.** `CanonicalJson`, `Base32`, `Decimal` and `Stellar`, `RateLimiter`, `Abac`.

A table is a sequence of rows and a row's key its position. One service call is one step. A call that throws after
its first write leaves that write, as the code does. Clocks, look-ups in other tables, bank answers, receivers and the
issuer are arguments of the call, and may be anything.

## Where the code and its documentation part

The model follows the code.

- `reject` looks at no status: an issued authorization can be rejected and its earmark is never given back
  (`ReserveLifecycles.RejectStrandsIssued`, `StrandedForever`), and nothing else does that (`StepStrandsExactlyWhen`).
  The column cannot tell, so the rows carry the history `hold`.
- `mintCapacity` uses the safety buffer and not the required ratio, so that full reserve is stated at 100%. When a
  permitted mint keeps a higher ratio is `FullReserve.PermittedMintsKeepRatioExactlyWhen`.
- `position` counts pending redemptions twice. The proof of full reserve needs this.
- Deposits stay cleared after a mint; no call consumes them.
- A confirmed mint enters the obligation only with the next liability snapshot. Full reserve is therefore proved under
  an assumption on the feed at each approval, and refuted without it.
- `release` does not look at issued loyalty; `reserve` and `release` ask for no sign. The exact condition under which
  loyalty stays backed is `PaykhBacking.StepKeepsBackedExactlyWhen`.
- `issue` and `redeem` post before they ask the issuer. If the answer is lost the entry stays and the counters do not
  move. The rows carry these amounts as history, `lostIssued` and `lostRedeemed`; `PaykhAnswers.RecordTellsTheCalls`
  says which calls they come from, and `LedgerIsCountedUnlessLost` in which runs there are none.
- Settlements and refunds are not bounded by the payable balance, which can be negative
  (`PaykhPayables.SettlementOverdrawsPayable`); `PaykhPayables.PayablesCoveredExactlyWhen` says in which runs it never
  is.
- A cancelled order may be one that was refunded before.

## Model

| member | source | states |
|---|---|---|
| FullReserve.FullReserveAlways | apps/trustee-api/src/modules/mint/mint.service.ts:145-410 | After every run of all deposit, mint, redemption, adjustment and feed calls, in any order and with any outcome, matched cash covers the true supply, the mints under way and the burned but unpaid redemptions of each program, if each approval sees a feed that covers the supply |
| FullReserve.StepKeepsFullReserve | apps/trustee-api/src/modules/mint/mint.service.ts:145-265 | One call, whichever it is and however it ends, keeps full reserve; only an approval needs the assumption on the feed |
| FullReserve.HeadroomFallsOnlyByApproval | apps/trustee-api/src/modules/mint/mint.service.ts:145-410 | No call lowers cleared deposits less minted and held amounts, except a successful approval, and that one by no more than its amount |
| FullReserve.FullReserveIsHeadroom | apps/trustee-api/src/modules/reserve/reserve.service.ts:48-143 | Full reserve holds exactly when cleared deposits cover confirmed mints and held mints: redemptions cancel out |
| FullReserve.CapacityIsSafeExactlyWhen | packages/reserves/src/reserve-calculation.ts:107-115 | All amounts the capacity test lets through are covered exactly when the capacity is zero or redemptions, adjustments, obligation and buffer make up for the mints the formula does not see |
| FullReserve.HeadroomIsCapacityPlusMargin | packages/reserves/src/reserve-calculation.ts:42-115 | While there is capacity, the cover for new mints is the capacity plus that margin, through both clamps |
| FullReserve.FreshFeedLeavesMargin | apps/trustee-api/src/modules/reserve/reserve.service.ts:48-143 | Under a covering feed the margin is never negative: the pending redemptions counted twice outweigh the burned ones |
| FullReserve.ApprovedMeansCapacity | apps/trustee-api/src/modules/mint/mint.service.ts:145-190 | A successful approval earmarks a positive amount within the live capacity of its program |
| FullReserve.PositionMeansRecords | apps/trustee-api/src/modules/reserve/reserve.service.ts:48-143 | Eligible reserve, obligation and capacity of the live position, clamps included, as totals over the deposit, redemption and authorization records |
| FullReserve.PositionOverBalances | apps/trustee-api/src/modules/reserve/reserve.service.ts:48-143 | The position fails only for an unknown program or a negative buffer rate, and otherwise is the two clamped differences of balances |
| FullReserve.LedgerMeansRecords | apps/trustee-api/src/modules/reserve/reserve-ledger.service.ts:54-73 | In every state with the invariant, the five reserve accounts are totals of the records: cash, unmatched, pending mint, pending redemption, obligation |
| StaleFeed.StaleFeedSpendsTheReserveTwice | apps/trustee-api/src/modules/mint/mint.service.ts:324-390 | Without the assumption on the feed full reserve is false: a run in which every guard passes deposits 100, mints 100 and earmarks another 100 |
| ReserveInvariants.ReachableInv | apps/trustee-api/src/modules/reserve/reserve-ledger.service.ts:54-73 | Every reachable state has the invariant: posted entries are balanced, each record has the ledger trace of its status, each balance is the sum of what the records contribute |
| ReserveInvariants.StepKeeps | apps/trustee-api/src/modules/mint/mint.service.ts:70-410 | Every call keeps that invariant |
| ReserveInvariants.RegisterKeeps | apps/trustee-api/src/modules/deposits/deposits.service.ts:43-95 | Registration keeps it, also when the engine refuses the amount after the row was written |
| ReserveInvariants.ClearKeeps | apps/trustee-api/src/modules/deposits/deposits.service.ts:134-178 | Clearing keeps it: unmatched becomes obligation |
| ReserveInvariants.IssueKeeps | apps/trustee-api/src/modules/mint/mint.service.ts:211-250 | Issuing always posts and keeps it: obligation becomes pending mint |
| ReserveInvariants.ReleaseKeeps | apps/trustee-api/src/modules/mint/mint.service.ts:290-410 | Revoking, confirming and expiring give back exactly the earmark of an issued authorization |
| ReserveInvariants.ApproveRedemptionKeeps | apps/trustee-api/src/modules/redemption/redemption.service.ts:73-105 | Approving a redemption moves its amount from obligation to pending redemption |
| ReserveInvariants.ConfirmPayoutKeeps | apps/trustee-api/src/modules/redemption/redemption.service.ts:153-184 | Confirming a payout moves its amount from pending redemption out of cash |
| ReserveLifecycles.AuthorizationLife | apps/trustee-api/src/modules/mint/mint.service.ts:145-410 | In every reachable state an authorization has no entry, or one reservation, or one reservation and then one release of the same amount; a confirmation is that release, for the authorized amount, in time, with the earmark approved by another than the maker |
| ReserveLifecycles.RedemptionLifeInLedger | apps/trustee-api/src/modules/redemption/redemption.service.ts:73-184 | A redemption is booked as owed at most once, then burned, then paid at most once; it is paid exactly when it is completed |
| ReserveLifecycles.PayoutFollowsBurn | apps/trustee-api/src/modules/redemption/redemption.service.ts:107-184 | The only call that pays a redemption is its payout confirmation, and it finds the obligation booked and the burn confirmed |
| ReserveLifecycles.PendingMintIsIssuedUnlessRejected | apps/trustee-api/src/modules/mint/mint.service.ts:145-410 | Over every run the pending-mint balance of every program is the total of its issued authorizations exactly when no call of the run rejected an authorization that was issued when it came |
| ReserveLifecycles.StepStrandsExactlyWhen | apps/trustee-api/src/modules/mint/mint.service.ts:268-287 | From a state where none is stranded, one call strands an earmark exactly when it rejects, by another hand than the maker, an issued authorization |
| ReserveLifecycles.RunStrandsExactlyWhen | apps/trustee-api/src/modules/mint/mint.service.ts:145-410 | Over every run some authorization is stranded exactly when some call rejected an issued one |
| ReserveLifecycles.PendingMintIsIssuedExactlyWhen | apps/trustee-api/src/modules/mint/mint.service.ts:268-287 | In one state, program and currency: the balance is that total exactly when no authorization there is stranded |
| ReserveLifecycles.RejectStrandsIssued | apps/trustee-api/src/modules/mint/mint.service.ts:268-287 | Rejecting an issued authorization succeeds, posts nothing and keeps its earmark |
| ReserveLifecycles.StrandedForever | apps/trustee-api/src/modules/mint/mint.service.ts:268-410 | No later call of any service gives such an earmark back |
| ReserveLifecycles.JournalIsAppendOnly | apps/trustee-api/src/modules/reserve/reserve-ledger.service.ts:20-47 | Over every run the earlier journal is a prefix of the later one |
| ReserveLifecycles.SnapshotStatusIsCoverage | apps/trustee-api/src/modules/reserve/reserve.service.ts:119-175 | A snapshot is OK exactly when the reserve is full at the required ratio |
| ReserveProvenance.EarmarkMeansGuardPassed | apps/trustee-api/src/modules/mint/mint.service.ts:145-210 | After every run, an amount was earmarked only if an earlier call approved that authorization, unchanged in amount and owner, while it awaited its checker, by another hand than its maker, with the guard saying yes on the book of that moment; its term runs from then |
| ReserveProvenance.ConfirmedWithinTerm | apps/trustee-api/src/modules/mint/mint.service.ts:324-390 | After every run a confirmation is for the approved amount and no later than the term that began with the approval |
| ReserveProvenance.AuthComesFromRequest | apps/trustee-api/src/modules/mint/mint.service.ts:70-109 | Every authorization stands for the positive amount and the deposits some call requested, in the currency of its program |
| ReserveProvenance.DepositComesFromRegister | apps/trustee-api/src/modules/deposits/deposits.service.ts:43-95 | Every deposit stands as some call registered it on a known account |
| ReserveProvenance.RedemptionComesFromRequest | apps/trustee-api/src/modules/redemption/redemption.service.ts:39-71 | Every redemption stands for the positive amount some call requested while redemptions were enabled |
| MintClearance.GuardSaysYesExactlyWhen | apps/trustee-api/src/modules/mint/mint.service.ts:425-527 | The guard says yes exactly when the amount is positive and within capacity, all named deposits exist, differ and are eligible, the newest verified snapshot is less than the maximum plus one second old (or there is none and the maximum is the largest safe integer), bank and proof of reserve are fresh enough, and nothing is held, suspended, restricted or unreconciled |
| MintClearance.LatestIsNewest | apps/trustee-api/src/modules/mint/mint.service.ts:444-447 | The snapshot in use is a verified one of the program that no other verified one outranks, and there is none exactly when none was verified |
| MintClearance.FeedAgeMeans | apps/trustee-api/src/modules/mint/mint.service.ts:512-514 | The age compared stays within a maximum exactly when that maximum is not negative and the clock is less than that many seconds plus one past the timestamp of the newest verified snapshot |
| MintClearance.FundingClearedMeans | apps/trustee-api/src/modules/mint/mint.service.ts:435-442 | The deposits count as cleared exactly when some are named, each once, each exists, and each is cleared, allocated or available |
| MintClearance.GuardSawCapacity | packages/reserves/src/mint-guard.ts:66-111 | It also means a positive amount in the currency of the program within its capacity |
| ReserveProvenance.ClearedMeansMatched | apps/trustee-api/src/modules/deposits/deposits.service.ts:97-178 | After every run a deposit is matched or cleared only if an earlier call matched it to an instruction of its exact amount and currency |
| ReserveProvenance.StepKeepsRows | packages/database/prisma/schema.prisma:308-617 | No call rewrites amount, currency or owner of a deposit, authorization or redemption, or removes one |
| ReserveProvenance.RunKeepsKeys | packages/database/prisma/schema.prisma:308-617 | No bank transaction, mint request or redemption request is ever taken twice |
| MintClearance.FeedNeverGoesBack | apps/trustee-api/src/modules/liability/liability.service.ts:52-100 | The figure the reserve uses is always the one ingested last: an older sequence never replaces a newer |
| ReserveCalculation.EligibleReserveSpec | packages/reserves/src/reserve-calculation.ts:42-63 | Accepted exactly when all amounts share a currency, then cash less seven deductions, never below zero |
| ReserveCalculation.ReserveObligationSpec | packages/reserves/src/reserve-calculation.ts:68-80 | Supply, redemptions and other liabilities less exclusions, never below zero |
| ReserveCalculation.MintCapacitySpec | packages/reserves/src/reserve-calculation.ts:107-118 | Eligible reserve less obligation, buffer and pending mints, never below zero |
| ReserveCalculation.RatioReaches | packages/reserves/src/reserve-calculation.ts:83-100 | The reported ratio reaches r basis points exactly when the reserve covers that share of the obligation |
| ReserveCalculation.CoverageReaches | packages/reserves/src/reserve-calculation.ts:131-139 | Full reserve holds exactly when the shortfall is below one minor unit |
| ReserveCalculation.RatioAndCoverage | packages/reserves/src/reserve-calculation.ts:83-139 | A sufficient ratio implies full reserve, and full reserve leaves a shortfall below one minor unit |
| ReserveCalculation.CapacityKeepsRatioExactlyWhen | packages/reserves/src/reserve-calculation.ts:107-139 | Every amount up to a capacity keeps the reserve full at the required ratio exactly when there is none or the ratio covers obligation and capacity together |
| FullReserve.PermittedMintsKeepRatioExactlyWhen | apps/trustee-api/src/modules/reserve/reserve.service.ts:99-143 | Every mint the live capacity permits keeps the required ratio of the program exactly under that condition on its position |
| FullReserve.FullRatioIsKept | apps/trustee-api/src/modules/reserve/reserve.service.ts:99-143 | Up to a required ratio of one to one every permitted mint keeps it |
| FullReserve.CapacityBreaksRatio | packages/reserves/src/reserve-calculation.ts:107-139 | At 150% the capacity of 200 on a reserve of 200 breaks the ratio |
| ReserveCalculation.CoverageWithoutRatio | packages/reserves/src/reserve-calculation.ts:83-139 | The converse is false: a pair that is covered with a ratio of zero |
| MintGuard.GuardFailsSafe | packages/reserves/src/mint-guard.ts:66-111 | A mint is allowed exactly when nothing blocks it, and the reasons are exactly the blocks |
| MintGuard.EvaluateMintGuard | packages/reserves/src/mint-guard.ts:66-111 | The branches push exactly the reasons of the decision, in order |
| Moneys.SumSpec | packages/domain/src/money.ts:55-61 | The fold succeeds exactly on a non-empty list in one currency, and then loses nothing |
| Journal.BuildJournalEntry | packages/ledger/src/journal.ts:69-119 | The loop accepts exactly two or more well-formed postings that balance, and names the first fault otherwise |
| Journal.AccountEffect | packages/ledger/src/journal.ts:151-164 | The loop nets the postings of an account by its normal side |
| Journal.ReverseCancels | packages/ledger/src/journal.ts:122-146 | Reversing an accepted entry is always accepted, negates every account effect, and reversing again restores the postings |
| Journal.ReversalIsNeutral | packages/ledger/src/journal.ts:122-146 | An entry and its reversal together move nothing |
| Entries.TransferSpec | packages/ledger/src/entries.ts:20-223 | Every template is accepted exactly for positive amounts, and shifts its two accounts and no other |
| Entries.ClearedAtOnce | packages/ledger/src/entries.ts:22-60 | Booking a deposit as cleared at once is booking it as detected and then clearing it |
| Ledger.AccountBalance | apps/trustee-api/src/modules/reserve/reserve-ledger.service.ts:54-73 | The loop over posting rows is the sum of the account effects of the entries in scope |
| Ledger.RowsEffect | apps/trustee-api/src/modules/reserve/reserve-ledger.service.ts:54-73 | Netting the rows of a query is summing entry by entry |
| Ledger.SubledgerBalances | apps/trustee-api/src/modules/reserve/reserve-ledger.service.ts:76-84 | The debits and credits of any journal of accepted entries net to zero |
| Ledger.TrialBalance | apps/trustee-api/src/modules/operations/operations.service.ts:61-81 | Over any grouping by account: each row has its balance, the totals are those of the postings and agree, and debit-normal balances total the credit-normal ones |
| Ledger.GroupingTotals | apps/trustee-api/src/modules/operations/operations.service.ts:61-81 | Grouping by account loses no posting |
| ReserveServices.ReserveLedgerService.Post | apps/trustee-api/src/modules/reserve/reserve-ledger.service.ts:20-47 | Appends the entry and changes nothing else |
| ReserveServices.ReserveLedgerService.AccountBalance | apps/trustee-api/src/modules/reserve/reserve-ledger.service.ts:54-73 | The balance recomputed from the stored journal |
| ReserveServices.DepositsService.Register | apps/trustee-api/src/modules/deposits/deposits.service.ts:43-95 | Takes the tables through the step of the call (ReserveEffects.RegisterOutcome tells its outcome), and keeps the invariant; the row stays when the engine refuses |
| ReserveServices.DepositsService.Match | apps/trustee-api/src/modules/deposits/deposits.service.ts:97-132 | Takes the tables through the step of the call (ReserveEffects.MatchOutcome tells its outcome), and keeps the invariant |
| ReserveServices.DepositsService.Clear | apps/trustee-api/src/modules/deposits/deposits.service.ts:134-178 | Takes the tables through the step of the call (ReserveEffects.ClearOutcome tells its outcome), and keeps the invariant |
| ReserveServices.ReserveService.Position | apps/trustee-api/src/modules/reserve/reserve.service.ts:48-143 | Reads the four balances one by one and computes PositionOf |
| ReserveServices.ReserveService.AddAdjustment | apps/trustee-api/src/modules/reserve/reserve.service.ts:280-299 | Takes the tables through the step of the call (ReserveEffects.AddAdjustmentOutcome tells its outcome), and keeps the invariant |
| ReserveServices.ReserveService.LiftAdjustment | apps/trustee-api/src/modules/reserve/reserve.service.ts:301-307 | Takes the tables through the step of the call (ReserveEffects.LiftAdjustmentOutcome tells its outcome), and keeps the invariant |
| ReserveServices.ReserveService.ReconcileBank | apps/trustee-api/src/modules/reserve/reserve.service.ts:328-385 | Says reconciled exactly when every account answered and the total is the ledger cash; says nothing while one did not answer, and counts those that did not |
| ReserveServices.LiabilityService.Ingest | apps/trustee-api/src/modules/liability/liability.service.ts:52-100 | Takes the tables through the step of the call (ReserveEffects.IngestOutcome tells its outcome), and keeps the invariant |
| MintServices.MintService.Request | apps/trustee-api/src/modules/mint/mint.service.ts:70-109 | Takes the tables through the step of the call (ReserveEffects.RequestMintOutcome tells its outcome), and keeps the invariant |
| MintServices.MintService.Review | apps/trustee-api/src/modules/mint/mint.service.ts:111-138 | Takes the tables through the step of the call (ReserveEffects.ReviewOutcome tells its outcome), and keeps the invariant |
| MintServices.MintService.GatherGuardFacts | apps/trustee-api/src/modules/mint/mint.service.ts:425-527 | Gathers the facts from the live position, the funding deposits and the latest feed |
| MintServices.MintService.Approve | apps/trustee-api/src/modules/mint/mint.service.ts:145-265 | Takes the tables through the step of the call (ReserveEffects.ApproveOutcome tells its outcome): a block rejects the authorization, a pass earmarks and issues, and keeps the invariant |
| MintServices.MintService.Reject | apps/trustee-api/src/modules/mint/mint.service.ts:268-287 | Takes the tables through the step of the call (ReserveEffects.RejectOutcome tells its outcome); no status is checked, and keeps the invariant |
| MintServices.MintService.Revoke | apps/trustee-api/src/modules/mint/mint.service.ts:290-321 | Takes the tables through the step of the call (ReserveEffects.RevokeOutcome tells its outcome), and keeps the invariant |
| MintServices.MintService.Confirm | apps/trustee-api/src/modules/mint/mint.service.ts:324-390 | Takes the tables through the step of the call (ReserveEffects.ConfirmOutcome tells its outcome); a late confirmation expires the authorization and fails, and keeps the invariant |
| MintServices.MintService.Expire | apps/trustee-api/src/modules/mint/mint.service.ts:393-410 | Takes the tables through the step of the call (ReserveEffects.ExpireOutcome tells its outcome), and keeps the invariant |
| MintServices.RedemptionService.Request | apps/trustee-api/src/modules/redemption/redemption.service.ts:39-71 | Takes the tables through the step of the call (ReserveEffects.RequestRedemptionOutcome tells its outcome), and keeps the invariant |
| MintServices.RedemptionService.Approve | apps/trustee-api/src/modules/redemption/redemption.service.ts:73-105 | Takes the tables through the step of the call (ReserveEffects.ApproveRedemptionOutcome tells its outcome), and keeps the invariant |
| MintServices.RedemptionService.ConfirmBurn | apps/trustee-api/src/modules/redemption/redemption.service.ts:107-126 | Takes the tables through the step of the call (ReserveEffects.ConfirmBurnOutcome tells its outcome), and keeps the invariant |
| MintServices.RedemptionService.SubmitPayout | apps/trustee-api/src/modules/redemption/redemption.service.ts:128-151 | Takes the tables through the step of the call (ReserveEffects.SubmitPayoutOutcome tells its outcome), and keeps the invariant |
| MintServices.RedemptionService.ConfirmPayout | apps/trustee-api/src/modules/redemption/redemption.service.ts:153-184 | Takes the tables through the step of the call (ReserveEffects.ConfirmPayoutOutcome tells its outcome), and keeps the invariant |
| PaykhTotals.TenantLedgerMeansRecords | apps/trustee-api/src/modules/paykh/loyalty.service.ts:137-302 | In every reachable state cash, merchant payable, program fund and loyalty of a tenant are totals over orders, funds, liabilities and settlements, plus what calls with a lost answer posted, which is nothing in the runs where none was lost; cash equals the three liabilities |
| PaykhAnswers.LedgerIsCountedUnlessLost | apps/trustee-api/src/modules/paykh/loyalty.service.ts:137-302 | Over every run the four accounts of every tenant are exactly the totals of statuses and counters if and only if no issue and no redemption of the run lost the answer of the issuer |
| PaykhAnswers.StepLosesExactlyWhen | apps/trustee-api/src/modules/paykh/loyalty.service.ts:157-302 | From a state with nothing lost, one call loses something exactly when it ends with the issuer unreachable; what was lost stays lost |
| PaykhAnswers.RunLosesExactlyWhen | apps/trustee-api/src/modules/paykh/loyalty.service.ts:157-302 | Over every run nothing is lost exactly when every answer arrived |
| PaykhAnswers.RecordTellsTheCalls | apps/trustee-api/src/modules/paykh/loyalty.service.ts:157-302 | Over every run the losses on record of a liability are the amounts of the issues and redemptions on it that lost their answer |
| PaykhAnswers.ReconcileReadsTheCounterUnlessLost | apps/trustee-api/src/modules/paykh/loyalty.service.ts:308-365 | Over every run the ledger figure is the counter of the only liability of its tenant and currency exactly when the issues and the redemptions on it that lost their answer amount to the same |
| PaykhAnswers.ReconcileReadsTheCounter | apps/trustee-api/src/modules/paykh/loyalty.service.ts:308-365 | If every answer arrived it is the counter |
| PaykhAnswers.ProgramFundNeverNegative | apps/trustee-api/src/modules/paykh/loyalty.service.ts:137-221 | If every answer arrived and reserves and releases left the earmark, no program-fund account is negative |
| PaykhAnswers.ProgramFundNotNegativeExactlyWhen | apps/trustee-api/src/modules/paykh/loyalty.service.ts:137-221 | In every reachable state it is not negative exactly when the lost issues are at most funded less issued |
| PaykhAnswers.LostAnswerOverdrawsTheFund | apps/trustee-api/src/modules/paykh/loyalty.service.ts:137-221 | Fund 100, issue 100 without an answer, issue 100 again: a program fund of -100 although every earmark was kept |
| PaykhPayables.PayablesCoveredExactlyWhen | apps/trustee-api/src/modules/paykh/settlements.service.ts:93-112 | Over every run no merchant payable is negative at any moment exactly when each settlement confirmed and each order refunded is within the payable it draws on when it comes |
| PaykhPayables.StepKeepsPayablesExactlyWhen | apps/trustee-api/src/modules/paykh/settlements.service.ts:93-112 | One call keeps every payable from going negative exactly when the settlement it confirms, or the order it refunds, is within the payable of its tenant and currency |
| PaykhPayables.SettlementOverdrawsPayable | apps/trustee-api/src/modules/paykh/settlements.service.ts:35-112 | A settlement of 100 for a tenant that collected nothing passes every check and leaves a payable of -100 |
| PaykhTotals.ReconcileReadsTheCounterExactlyWhen | apps/trustee-api/src/modules/paykh/loyalty.service.ts:308-365 | In one state, with any number of liabilities: the ledger figure is the counter exactly when the other counters and the losses cancel |
| PaykhTotals.LostIssueCanBeRepeated | apps/trustee-api/src/modules/paykh/loyalty.service.ts:157-190 | An issue that loses the answer of the issuer stays in the ledger, not on the counters, and the same request is accepted again |
| PaykhTotals.OrderLifeInLedger | apps/trustee-api/src/modules/paykh/payment-orders.service.ts:100-225 | In every reachable state an order has no entry, or one collection, or the collection and its reversal, which cancel; no other order shares its bank transaction |
| PaykhTotals.SettlementLifeInLedger | apps/trustee-api/src/modules/paykh/settlements.service.ts:35-112 | A settlement pays once, for its positive amount, and only after someone other than its maker approved it |
| PaykhTotals.ConfirmedLeavesOnlyByRefund | apps/trustee-api/src/modules/paykh/payment-orders.service.ts:193-225 | The only call that ends a confirmation is its refund |
| PaykhInvariants.ReachableInv | packages/database/prisma/schema.prisma:808-990 | Every reachable state of the tenant system has the invariant over orders, funds, liabilities and settlements |
| PaykhInvariants.StepKeepsLedger | apps/trustee-api/src/modules/paykh/loyalty.service.ts:137-302 | Every call keeps all balances equal to the sum of what the records contribute, whether it succeeds, fails or loses an answer |
| PaykhInvariants.StepKeepsOrders | apps/trustee-api/src/modules/paykh/payment-orders.service.ts:52-255 | Every call keeps the trace of each order in step with its status |
| PaykhInvariants.StepKeepsTransactions | apps/trustee-api/src/modules/paykh/payment-orders.service.ts:119-135 | No call records a bank transaction on a second order |
| PaykhInvariants.StepKeepsCounters | apps/trustee-api/src/modules/paykh/loyalty.service.ts:90-302 | Outstanding stays issued less redeemed and not negative, and each liability stays on its own fiat-backed fund |
| PaykhInvariants.StepPosts | apps/trustee-api/src/modules/reserve/reserve-ledger.service.ts:20-47 | A call posts at most one entry, and that one for its own record |
| PaykhBacking.LoyaltyAlwaysBacked | apps/trustee-api/src/modules/paykh/loyalty.service.ts:137-302 | After every run whose reserves and releases leave the earmark, redeemed is at most issued, issued at most reserved, reserved at most funded, and the program-fund account is short by no more than the issues that lost their answer |
| PaykhBacking.StepKeepsBackedExactlyWhen | apps/trustee-api/src/modules/paykh/program-funds.service.ts:82-124 | One call keeps every fund covering its loyalty exactly when a reserve or release leaves at least what is issued and at most what is funded |
| PaykhBacking.IssueIsBackedExactlyWhen | apps/trustee-api/src/modules/paykh/loyalty.service.ts:146-155 | Every issue the coverage guard accepts is fully backed exactly when it accepts none or all outstanding loyalty is reserved |
| PaykhBacking.ReleaseBelowIssuedBreaksBacking | apps/trustee-api/src/modules/paykh/program-funds.service.ts:107-124 | Fund 100, issue 100, release 100, issue 100: 200 outstanding on 100, and a program-fund balance of -100 |
| PaykhProvenance.PaidMeansChecked | apps/trustee-api/src/modules/paykh/payment-orders.service.ts:100-175 | After every run an order carries a bank transaction only if an earlier check of it agreed in amount, currency, reference and recipient before the order expired |
| PaykhProvenance.OrderComesFromCreate | apps/trustee-api/src/modules/paykh/payment-orders.service.ts:52-93 | Every order stands as some call created it on an active profile of its currency, and expires its term after that |
| PaykhProvenance.RunKeepsReferences | packages/database/prisma/schema.prisma:808-870 | No payment reference and no program of a tenant is ever used twice |
| PaykhReconciliation.ReconcilePaymentOrders | apps/trustee-api/src/modules/reconciliation/reconciliation.service.ts:55-77 | On any rows: the confirmed orders without a transaction, then exactly the transactions used more than once, each once, with all their orders |
| PaykhReconciliation.ReachableOrdersReconcile | apps/trustee-api/src/modules/reconciliation/reconciliation.service.ts:55-77 | In every reachable state no transaction is reported, and nothing at all exactly when no confirmed order was paid by a transaction with the empty name |
| PaykhServices.PaymentOrdersService.Create | apps/trustee-api/src/modules/paykh/payment-orders.service.ts:52-93 | Takes the tables through the step of the call (PaykhEffects.CreateOrderOutcome tells its outcome), and keeps the invariant |
| PaykhServices.PaymentOrdersService.Mismatches | apps/trustee-api/src/modules/paykh/payment-orders.service.ts:137-147 | Lists exactly the attributes in which a payment and its order differ |
| PaykhServices.PaymentOrdersService.CheckPayment | apps/trustee-api/src/modules/paykh/payment-orders.service.ts:100-186 | Takes the tables through the step of the call (PaykhEffects.CheckPaymentOutcome tells its outcome), and keeps the invariant |
| PaykhServices.PaymentOrdersService.Refund | apps/trustee-api/src/modules/paykh/payment-orders.service.ts:193-225 | Takes the tables through the step of the call (PaykhEffects.RefundOutcome tells its outcome), and keeps the invariant |
| PaykhServices.PaymentOrdersService.Cancel | apps/trustee-api/src/modules/paykh/payment-orders.service.ts:245-255 | Takes the tables through the step of the call (PaykhEffects.CancelOrderOutcome tells its outcome), and keeps the invariant |
| PaykhServices.ProgramFundsService.Create | apps/trustee-api/src/modules/paykh/program-funds.service.ts:33-51 | Takes the tables through the step of the call (PaykhEffects.CreateFundOutcome tells its outcome), and keeps the invariant |
| PaykhServices.ProgramFundsService.Fund | apps/trustee-api/src/modules/paykh/program-funds.service.ts:54-79 | Takes the tables through the step of the call (PaykhEffects.FundProgramOutcome tells its outcome), and keeps the invariant |
| PaykhServices.ProgramFundsService.Reserve | apps/trustee-api/src/modules/paykh/program-funds.service.ts:82-105 | Takes the tables through the step of the call (PaykhEffects.ReserveFundOutcome tells its outcome), and keeps the invariant |
| PaykhServices.ProgramFundsService.Release | apps/trustee-api/src/modules/paykh/program-funds.service.ts:107-124 | Takes the tables through the step of the call (PaykhEffects.ReleaseFundOutcome tells its outcome), and keeps the invariant |
| PaykhServices.LoyaltyService.Bind | apps/trustee-api/src/modules/paykh/loyalty.service.ts:90-134 | Takes the tables through the step of the call (PaykhEffects.BindOutcome tells its outcome), and keeps the invariant |
| PaykhServices.LoyaltyService.Issue | apps/trustee-api/src/modules/paykh/loyalty.service.ts:137-221 | Takes the tables through the step of the call (PaykhEffects.IssueOutcome tells its outcome); the entry is posted before the issuer is asked, and keeps the invariant |
| PaykhServices.LoyaltyService.Redeem | apps/trustee-api/src/modules/paykh/loyalty.service.ts:224-302 | Takes the tables through the step of the call (PaykhEffects.RedeemOutcome tells its outcome), and keeps the invariant |
| PaykhServices.LoyaltyService.Reconcile | apps/trustee-api/src/modules/paykh/loyalty.service.ts:308-367 | Reports drift exactly when the chain was read and differs from the ledger, and full backing exactly when the fund holds the counter |
| PaykhServices.SettlementsService.Create | apps/trustee-api/src/modules/paykh/settlements.service.ts:35-63 | Takes the tables through the step of the call (PaykhEffects.CreateSettlementOutcome tells its outcome), and keeps the invariant |
| PaykhServices.SettlementsService.Approve | apps/trustee-api/src/modules/paykh/settlements.service.ts:65-90 | Takes the tables through the step of the call (PaykhEffects.ApproveSettlementOutcome tells its outcome), and keeps the invariant |
| PaykhServices.SettlementsService.Confirm | apps/trustee-api/src/modules/paykh/settlements.service.ts:93-112 | Takes the tables through the step of the call (PaykhEffects.ConfirmSettlementOutcome tells its outcome), and keeps the invariant |
| PaykhServices.SettlementsService.Cancel | apps/trustee-api/src/modules/paykh/settlements.service.ts:125-135 | Takes the tables through the step of the call (PaykhEffects.CancelSettlementOutcome tells its outcome), and keeps the invariant |
| Outbox.OutboxDrains | apps/trustee-worker/src/webhook-delivery.ts:72-166 | From any state, whatever the receivers answer, after as many passes as an event can be attempted times the batches of pending events, every event is delivered or dead-lettered |
| Outbox.OutboxDrainsAfterRun | apps/trustee-worker/src/webhook-delivery.ts:72-166 | After any run of publishes, passes and replays, the threshold times the batches of pending events is enough |
| Outbox.RoundTakesABatch | apps/trustee-worker/src/webhook-delivery.ts:72-166 | As many passes as an event can be attempted shorten the queue by a whole batch, or empty it |
| Outbox.BatchesRoundUp | apps/trustee-worker/src/webhook-delivery.ts:21-22 | The number of batches is the quotient rounded up |
| Outbox.FirstAttemptsInSequence | apps/trustee-worker/src/webhook-delivery.ts:73-77 | Over every run of publishes, passes and replays, an event is first attempted only after all events of lower sequence |
| Outbox.RunPartitions | apps/trustee-worker/src/webhook-delivery.ts:140-166 | Over every run no event is both delivered and dead-lettered, and attempts stay within the threshold |
| Outbox.HealthCountsAddUp | apps/trustee-api/src/modules/admin/admin.service.ts:250-255 | The three health counts add up to the number of events after every run |
| Outbox.CountsOverlap | apps/trustee-api/src/modules/admin/admin.service.ts:250-255 | On any rows they exceed it by exactly the events counted twice |
| Outbox.AttemptBatch | apps/trustee-worker/src/webhook-delivery.ts:79-152 | Working through the batch one by one is the pass as a whole |
| Outbox.DeliveryWorker.DeliverPending | apps/trustee-worker/src/webhook-delivery.ts:72-154 | The loop is one pass, and returns the number of rows that became delivered in it |
| Outbox.DeliveryWorker.Replay | apps/trustee-api/src/modules/admin/admin.service.ts:272-278 | Queues one event anew, or fails for an unknown one |
| Outbox.DeliveryWorker.ReplayDeadLettered | apps/trustee-api/src/modules/admin/admin.service.ts:281-287 | Queues every dead-lettered event anew and counts them |
| CanonicalJson.CanonicalizeIsFaithful | packages/cryptography/src/signing.ts:54-69 | Two payloads have one canonical text exactly when they are equal up to key order and bigint as decimal string |
| CanonicalJson.ParsePrint | packages/cryptography/src/signing.ts:54-56 | Every printed value is read back as itself by a reader of the grammar (RFC 8259, sections 2 and 7) |
| CanonicalJson.CanonicalizeReadsBack | packages/cryptography/src/signing.ts:54-69 | The canonical text reads back as the sorted value and as nothing else |
| CanonicalJson.CanonEqualExactlyWhenSame | packages/cryptography/src/signing.ts:58-69 | The sorted values are equal exactly when the payloads are the same |
| CanonicalJson.SortValueIdempotent | packages/cryptography/src/signing.ts:58-69 | Sorting twice is sorting once |
| CanonicalJson.SortedIsSame | packages/cryptography/src/signing.ts:54-69 | A payload is the same as its sorted form, and both have one canonical text |
| CanonicalJson.SortValue | packages/cryptography/src/signing.ts:58-69 | The recursion that fills a new object key by key computes that form |
| Base32.RoundTrip | packages/cryptography/src/totp.ts:44-76 | Decoding undoes encoding for bytes of any number |
| Base32.Encode | packages/cryptography/src/totp.ts:44-58 | The loop over the unmasked register puts out ceil(8n/5) symbols whose number is that of the bytes, shifted to the left end (section 6 of RFC 4648) |
| Base32.Decode | packages/cryptography/src/totp.ts:60-76 | The loop reads from any text the whole bytes its digits hold; padding is dropped, characters are taken in upper case, foreign ones are skipped |
| Base32.EncodeThenDecode | packages/cryptography/src/totp.ts:44-76 | Encoding, padding by any number of signs, and decoding gives the bytes back |
| Base32.EncodingIsUnique | packages/cryptography/src/totp.ts:44-58 | What Encode ensures fixes the text |
| Base32.DecodingIsUnique | packages/cryptography/src/totp.ts:60-76 | What Decode ensures fixes the bytes |
| Base32.AppendPending | packages/cryptography/src/totp.ts:49-50 | A shift that loses bits on the left of the 32-bit register keeps the pending ones |
| Stellar.AmountRoundTrip | packages/adapters/src/stellar-adapter.ts:43-62 | Exactly the precisions 0 to 7 are supported, and at each of them every integer amount, negative ones included, comes back from its text |
| Stellar.ReadingTruncates | packages/adapters/src/stellar-adapter.ts:56-62 | Reading an unsigned amount is the exact number of minor units rounded down |
| Stellar.SupplyBound | packages/adapters/src/stellar-adapter.ts:125-143 | The supply of n components is at most the truncated exact sum and at least that minus n - 1, and exact when no component has more digits than the asset |
| Stellar.SupplyBoundIsTight | packages/adapters/src/stellar-adapter.ts:125-143 | With the six components of a record the difference of five is reached |
| RateLimiter.MinuteIsExact | apps/trustee-api/src/infra/rate-limit.service.ts:28-54 | At any clock values, in any order, of n calls of a client in a minute exactly min(n, limit) are allowed |
| RateLimiter.AnyMinuteAtMostTwice | apps/trustee-api/src/infra/rate-limit.service.ts:28-54 | No stretch of 60,000 milliseconds lets through more than twice the limit |
| RateLimiter.AllowedExactlyWhen | apps/trustee-api/src/infra/rate-limit.service.ts:52-53 | A call is allowed exactly when fewer than the limit came before it in its minute, and is told how many remain |
| RateLimiter.ResetAfterMinute | apps/trustee-api/src/infra/rate-limit.service.ts:30-32 | A counter never looks stale inside its own minute, before 1970 too |
| RateLimiter.KeyInjective | apps/trustee-api/src/infra/rate-limit.service.ts:33 | A key tells client and minute, whatever the client is called |
| RateLimiter.RateLimitService.Consume | apps/trustee-api/src/infra/rate-limit.service.ts:28-54 | The in-memory path updates one counter and decides by it |
| Abac.DecisionMeaning | packages/domain/src/abac.ts:67-88 | Denied exactly when some matching policy denies; else the earliest matching requirement of the highest priority; else two approvals |
| Abac.EvaluateIsOnePass | packages/domain/src/abac.ts:67-88 | Filter, stable sort and find decide as one pass over the policies does |
| Abac.SortIsStable | packages/domain/src/abac.ts:71-73 | The sort loses no policy, orders by falling priority and keeps the order of equals |
| Abac.OrderIrrelevant | packages/domain/src/abac.ts:67-88 | With distinct priorities the decision does not depend on the order of the policies |
| Abac.QueryIrrelevant | apps/trustee-api/src/modules/admin/admin.service.ts:145-153 | Selecting by type and enabled before evaluating changes no decision |
| ReserveEffects.RegisterOutcome | apps/trustee-api/src/modules/deposits/deposits.service.ts:43-95 | The row is written as soon as account, program and bank transaction are in order; the call succeeds exactly when the amount is positive too, and then cash and unmatched deposits rise by it and no other balance moves |
| ReserveEffects.MatchOutcome | apps/trustee-api/src/modules/deposits/deposits.service.ts:97-132 | Succeeds exactly for an unmatched deposit and an instruction of its currency and amount, and only marks the row |
| ReserveEffects.ClearOutcome | apps/trustee-api/src/modules/deposits/deposits.service.ts:134-178 | Succeeds exactly on a matched deposit whose account is known; its amount turns from unmatched into obligation |
| ReserveEffects.RequestMintOutcome | apps/trustee-api/src/modules/mint/mint.service.ts:70-109 | Succeeds exactly for a known program, a positive amount and a new request, and adds one row awaiting review |
| ReserveEffects.ReviewOutcome | apps/trustee-api/src/modules/mint/mint.service.ts:111-138 | Succeeds exactly on a row that waits, by a trustee maker, and records the maker |
| ReserveEffects.ApproveOutcome | apps/trustee-api/src/modules/mint/mint.service.ts:145-265 | Succeeds exactly when the row awaits this known checker, who is not its maker, and nothing stands against the mint; then the amount turns from obligation into pending mint and the row is issued until the term after the clock; a blocked row is rejected and nothing is posted |
| ReserveEffects.RejectOutcome | apps/trustee-api/src/modules/mint/mint.service.ts:268-287 | Whether the call succeeds and which row it leaves, with no status asked for and no balance moved |
| ReserveEffects.RevokeOutcome | apps/trustee-api/src/modules/mint/mint.service.ts:290-321 | On an issued row: no fault, the row revoked, pending mint down and obligation up by its amount, all else as it was; on any other: a fault and nothing changed |
| ReserveEffects.ConfirmOutcome | apps/trustee-api/src/modules/mint/mint.service.ts:324-390 | Succeeds exactly on an issued row in its term and for its amount, which is consumed and its earmark given back; a late call gives the earmark back, leaves the row expired and fails; any other changes nothing |
| ReserveEffects.ExpireOutcome | apps/trustee-api/src/modules/mint/mint.service.ts:393-410 | On an issued row the earmark goes back and the row expires; on any other known row nothing happens |
| ReserveEffects.RevokedIsNeverConfirmed | apps/trustee-api/src/modules/mint/mint.service.ts:290-410 | A revoked or expired row is not confirmed, and after any further run still is not |
| ReserveProvenance.EarmarkMeansClear | apps/trustee-api/src/modules/mint/mint.service.ts:145-210 | After every run, each earmark goes back to an approval at which nothing stood against the mint, told by rows, clock and environment |
| ReserveEffects.RequestRedemptionOutcome | apps/trustee-api/src/modules/redemption/redemption.service.ts:39-71 | Succeeds exactly for a known program while enabled, a positive amount and a new request, and adds one row |
| ReserveEffects.ApproveRedemptionOutcome | apps/trustee-api/src/modules/redemption/redemption.service.ts:73-105 | Succeeds exactly on an awaiting row by a trustee; its amount turns from obligation into pending redemption |
| ReserveEffects.ConfirmBurnOutcome | apps/trustee-api/src/modules/redemption/redemption.service.ts:107-126 | Succeeds exactly on an approved row or one with its asset locked; marks the burn with its hash and moves nothing |
| ReserveEffects.SubmitPayoutOutcome | apps/trustee-api/src/modules/redemption/redemption.service.ts:128-151 | Succeeds exactly on a burned row while payouts are enabled, and moves nothing |
| ReserveEffects.ConfirmPayoutOutcome | apps/trustee-api/src/modules/redemption/redemption.service.ts:153-184 | Succeeds exactly on a submitted row; its amount leaves pending redemption and cash |
| ReserveEffects.AddAdjustmentOutcome | apps/trustee-api/src/modules/reserve/reserve.service.ts:280-299 | A known kind adds its amount to the total of that kind in its program and currency, and to no other |
| ReserveEffects.LiftAdjustmentOutcome | apps/trustee-api/src/modules/reserve/reserve.service.ts:301-307 | Takes the amount of an active adjustment out of its total again; a lifted one counts for nothing |
| ReserveEffects.IngestOutcome | apps/trustee-api/src/modules/liability/liability.service.ts:52-100 | A snapshot is taken exactly when it is signed as required, above every stored sequence of its known program, and, if verified, its figure is then the supply in use |
| ReserveEffects.EntryNamesCaller | apps/trustee-api/src/modules/reserve/reserve-ledger.service.ts:20-47 | Each call adds at most one entry, and it carries the name of the caller |
| ReserveServices.KnownTotalInsert | apps/trustee-api/src/modules/reserve/reserve.service.ts:348-366 | An account that answered adds its balance to the total wherever it stands, one that did not adds nothing |
| FullReserve.PositionRatio | apps/trustee-api/src/modules/reserve/reserve.service.ts:99-143 | The ratio of the live position reaches r basis points exactly when the eligible reserve covers that share of the obligation |
| PaykhEffects.CreateOrderOutcome | apps/trustee-api/src/modules/paykh/payment-orders.service.ts:52-93 | Succeeds exactly for an active profile of the currency and a new reference; the row expires after the term given, or 900 seconds |
| PaykhEffects.CheckPaymentOutcome | apps/trustee-api/src/modules/paykh/payment-orders.service.ts:100-186 | Succeeds exactly on an order confirmed by this transaction before, unchanged, or an open one in its term with a positive amount that the payment fits and no other order has; then cash and payable rise by it; a late check leaves the order expired |
| PaykhEffects.RefundOutcome | apps/trustee-api/src/modules/paykh/payment-orders.service.ts:193-225 | Succeeds exactly on a confirmed order, whose amount leaves cash and payable |
| PaykhEffects.CancelOrderOutcome | apps/trustee-api/src/modules/paykh/payment-orders.service.ts:245-255 | Succeeds exactly on an order that is not confirmed, and moves nothing |
| PaykhEffects.CreateFundOutcome | apps/trustee-api/src/modules/paykh/program-funds.service.ts:33-51 | Succeeds exactly for a program name new to the tenant, and adds an empty fund |
| PaykhEffects.FundProgramOutcome | apps/trustee-api/src/modules/paykh/program-funds.service.ts:54-79 | A positive amount is added to the fund; cash and program fund rise by it exactly for the fiat-backed classifications |
| PaykhEffects.ReserveFundOutcome | apps/trustee-api/src/modules/paykh/program-funds.service.ts:82-105 | Succeeds exactly within what the fund has left, and raises the reserved amount |
| PaykhEffects.ReleaseFundOutcome | apps/trustee-api/src/modules/paykh/program-funds.service.ts:107-124 | Succeeds exactly within the reserved amount, and lowers it |
| PaykhEffects.BindOutcome | apps/trustee-api/src/modules/paykh/loyalty.service.ts:90-134 | Succeeds exactly for a fiat-backed fund of the tenant and currency that has no liability yet, and a positive denomination |
| PaykhEffects.IssueOutcome | apps/trustee-api/src/modules/paykh/loyalty.service.ts:137-221 | For an amount m asked for, as m minor units or as units of which the denomination makes m: succeeds exactly when loyalty is enabled, m is positive and at most funded less reserved, and the issuer answers where it must; then reserved, issued, outstanding and the loyalty balance rise by m, the program fund falls by it |
| PaykhEffects.RedeemOutcome | apps/trustee-api/src/modules/paykh/loyalty.service.ts:224-302 | For an amount m asked for in either way: succeeds exactly at an active merchant, for a positive m within the outstanding, with an answer where one is needed; then outstanding and the loyalty balance fall by m, redeemed and the payable rise by it |
| PaykhEffects.ReconcileOutcome | apps/trustee-api/src/modules/paykh/loyalty.service.ts:308-367 | Writes what was read on chain or else the ledger figure, and calls it drift exactly when it was read and differs |
| PaykhEffects.CreateSettlementOutcome | apps/trustee-api/src/modules/paykh/settlements.service.ts:35-63 | Succeeds exactly for an active merchant and adds a row with its maker |
| PaykhEffects.ApproveSettlementOutcome | apps/trustee-api/src/modules/paykh/settlements.service.ts:65-90 | Succeeds exactly on a waiting row by another than its maker |
| PaykhEffects.ConfirmSettlementOutcome | apps/trustee-api/src/modules/paykh/settlements.service.ts:93-112 | Succeeds exactly on an approved row of a positive amount, which leaves payable and cash |
| PaykhEffects.CancelSettlementOutcome | apps/trustee-api/src/modules/paykh/settlements.service.ts:125-135 | Succeeds exactly on a row that is not settled, and moves nothing |
| ReserveEffects.FaultsMean | apps/trustee-api/src/modules/mint/mint.service.ts:70-410 | A call ends as not found, conflicting or forbidden exactly when it names something that is not there, takes a key that is taken or a sequence that is not above, or decides on own work, in the order the code looks |
| PaykhEffects.FaultsMean | apps/trustee-api/src/modules/paykh/payment-orders.service.ts:52-255 | The same of every tenant call: not found, conflicting and forbidden each mean exactly one thing |
| PaykhEffects.EntryNamesCaller | apps/trustee-api/src/modules/reserve/reserve-ledger.service.ts:20-47 | Each call adds at most one entry, and it carries the name of the caller |
| Outbox.DeliveryOutcome | apps/trustee-worker/src/webhook-delivery.ts:72-166 | A pass touches exactly the first waiting events, as many as a batch holds; an accepted one is delivered at the clock of the pass, any other stays undelivered, counts one attempt more and is dead-lettered exactly when that reaches the threshold |
| Outbox.DeliveredExactlyWhen | apps/trustee-worker/src/webhook-delivery.ts:143-148 | An undelivered event becomes delivered at t exactly in a pass with clock t that serves it and is accepted |
| Outbox.DeliveredMeansAccepted | apps/trustee-worker/src/webhook-delivery.ts:72-154 | Over every run an event stands as delivered at t only through such a pass |
| Outbox.QueueOutcome | apps/trustee-api/src/modules/admin/admin.service.ts:272-287 | A replay puts exactly the one event, or exactly the dead-lettered ones, back without attempts; publishing adds one such event |
| Outbox.HealthMeans | apps/trustee-api/src/modules/admin/admin.service.ts:250-255 | Each health count is the number of events in that state |
| CanonicalJson.CanonKeysAscend | packages/cryptography/src/signing.ts:58-69 | In every object of the sorted value neighbouring keys ascend: one is a proper prefix of the other, or has the smaller code unit where they first differ |
| CanonicalJson.CanonicalTextAscends | packages/cryptography/src/signing.ts:54-69 | So do the keys of every object read back from the canonical text |
| CanonicalJson.EscapeMeans | packages/cryptography/src/signing.ts:54-56 | Which characters a string escapes, and how: quote, backslash, the five short forms, four lower-case hexadecimal digits for other controls and lone surrogates (section 7 of RFC 8259) |
| CanonicalJson.Punctuation | packages/cryptography/src/signing.ts:54-56 | The characters of the grammar (section 2 of RFC 8259) |
| Base32.LowerCaseReads | packages/cryptography/src/totp.ts:61 | A text in lower case reads as in upper case |
| Base32.ForeignIsSkipped | packages/cryptography/src/totp.ts:66-67 | A character outside the alphabet changes nothing wherever it stands |
| Stellar.TextMeans | packages/adapters/src/stellar-adapter.ts:43-53 | The text has a sign exactly when negative, a digit before the point, no needless zero, and as many digits after it as decimals |
| Stellar.SpaceIsIgnored | packages/adapters/src/stellar-adapter.ts:57-60 | Space in front, before a sign too, changes nothing |
| Stellar.MinusInsideIsIgnored | packages/adapters/src/stellar-adapter.ts:57-58 | A minus sign behind other characters is dropped and does not negate |
| Stellar.SecondPointIsIgnored | packages/adapters/src/stellar-adapter.ts:58 | What stands behind a second point is not read |
| Stellar.AbsentAddsNothing | packages/adapters/src/stellar-adapter.ts:125-143 | A component without a balance adds nothing wherever it stands |
| RateLimiter.RefusedHasNothingLeft | apps/trustee-api/src/infra/rate-limit.service.ts:52-53 | A refused call has nothing left |
| RateLimiter.ResetIsNextMinute | apps/trustee-api/src/infra/rate-limit.service.ts:31 | From 1970 on the reset time is the start of the next minute, rounded to whole seconds |
| Abac.UnconditionalMatches | packages/domain/src/abac.ts:44-60 | A policy without conditions matches exactly the transactions of its type while enabled |
| Abac.AttributeNarrows | packages/domain/src/abac.ts:47-51 | A condition on an attribute narrows it to exactly the transactions with that value; an empty one does not |
| Abac.BoundNarrows | packages/domain/src/abac.ts:52-58 | A bound narrows it to exactly the transactions with an amount on its side, the bound included |
| Journal.TypeIsPrefix | packages/ledger/src/accounts.ts:50-67 | The type of an account is decided by what stands before the first colon of its code |
| Journal.NormalSide | packages/ledger/src/journal.ts:151-164 | A posting raises an asset or expense account by its debit and any other by its credit |

## Left out

- Interleaving inside one call: two replicas that read the same row before either writes are not modelled.
- Currency codes in lower case: a code is taken as already normalised, as `money` does on entry.
- Event payloads, audit rows, description and memo text, asset references and signatures on authorizations: they carry
  no balance and decide no branch.
- Network failures other than the lost answer of the issuer; the fault of a failed supply reading ends the call before
  any write.
- Text forms of numbers in requests: amounts arrive as integers, so the errors of parsing them are not modelled.
- Ed25519, HMAC, SHA-256 and scrypt: signature checks are boolean inputs.
- TOTP truncation and `verifyTotp`: three comparisons and a remainder around an uninterpreted HMAC would add only easy
  members.
- Redis counters and hourly usage of the rate limiter: only the in-memory path is modelled.
- Controllers, request validation, role checks, the portal, the scheduler, attestations, the merchants registry,
  payment profiles and funding instructions: wiring and short status checks; their answers are inputs of the calls.
- The per-attempt delivery log of webhooks and the envelope that is signed: no later decision reads them.
- CanonicalJson.CanonicalizeIsFaithful: payloads hold no undefined value, no NaN, infinity or negative zero, no
  fraction, no whole number of 10^21 or more in magnitude, no key `__proto__` and no key that is an array index, because
  their printing is another function.
- Base32.Decode: a text is a sequence of Unicode characters, so that unpaired surrogates, which are foreign to the
  alphabet, do not occur; of an upper case only what lies in the alphabet matters and is modelled.
- Base32.Encode: the register is taken by its bit pattern, as a number from 0 to 2^32 - 1, not with a sign.
- Stellar.AmountRoundTrip: reading drops space and refuses what is then no row of digits; other ways to write an
  integer (with a further sign, in hexadecimal, octal or binary) are not modelled, and `decimals` is a whole number.
- Outbox.OutboxDrains: the batch size is a positive whole number and the threshold a whole number, as configured.
- Abac.OrderIrrelevant: priorities are whole numbers.
- RateLimiter.MinuteIsExact: the limit of the client is constant and a whole number.
- FullReserve.FullReserveAlways: the feed is assumed to cover the true supply at each approval, adjustments included,
  because the claim is false without it (`StaleFeed.StaleFeedSpendsTheReserveTwice`).
