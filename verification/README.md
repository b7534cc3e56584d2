# Verified model of the profit-distribution platform

This project models, in Dafny, the parts of the platform that move money and evidence, and proves what
they keep over all inputs and all runs: the exact allocation of profit and its way into the ledger, the
outbox, inbox and audit chain as one step protocol, the ingestion of core-banking batches, the life of a
calculation run, the subscription ledger, asset allocation over time, and the text codecs underneath.

`dafny verify dfyconfig.toml` checks the whole project.

## How the model is built

* Code that computes becomes functions; code that updates rows, fields or local variables becomes classes
  and methods with loops, each proved equal to a function, about which the lemmas speak.
* One SQL statement, or one transaction under its locks, is one atomic step over maps and sequences.
  Protocols are runs: a sequence of states in which every step is one enabled statement of one process,
  in any interleaving, with crashes, lost replies and redeliveries.
* The surroundings are parameters: clocks, the broker's and the antivirus's answers, signatures, reference
  data, the normal forms in which a database column gives a text back.

Assumptions, all of them visible in the contracts:

* SHA-256 is an injective function (`Texts.Injective`).
* `localeCompare` is a strict total order on the identifiers and keys compared; the model uses code-unit
  order (`Sorting.Less`) and nothing of it but that.
* decimal.js rounds every operation correctly at its precision: half to even in the Musharaka and
  Moutanaqissa engine, towards zero in the Moudaraba engine. The proofs hold for every precision.
* The audit table is read in the order of its appends; identifiers of outbox events and of direct audit
  drafts are drawn afresh; batch identifiers are not shared between replay keys.
* Characters are Unicode scalar values; a lone surrogate cannot occur in a Dafny string.

## Where the code does not do what it is for

Each of these is a lemma at an input that shows it, next to the exact condition, or to a condition on the
input under which it cannot happen.

* Stored amounts have twelve fraction digits and are parsed at the currency's own number of digits, at most
  six, when a run is posted or a journal is reversed. Parsing then refuses every amount, so no run can be
  posted (`AllocationJournal.StoredAmountReads`, `RunSafety.PostingSucceedsExactly`).
* A Moudaraba profit of more digits than the precision is cut; what is cut off is handed out in turn, to
  weights of zero as well, and lost with a category that has no account
  (`Moudaraba.LongProfitFails`, `RoundedShares.ZeroWeightGetsNothingExactly`,
  `Moudaraba.FixedKeyConservesExactly`). Weights whose sum is not exact can hand out more than the total
  (`Moudaraba.InexactBasesFail`, `RoundedShares.SharesSumToTotal`). A profit that, times the number of
  accounts or categories, leaves one digit of the precision free meets neither
  (`Moudaraba.ProfitIsConserved`, `Moudaraba.ShortProfitsFit`); with exact sums the weighted average
  conserves at any size (`Moudaraba.ExactAveragesConserve`).
* Moudaraba quotas are compared as computed: of weights that differ beyond the precision only, the smaller can
  get the unit left over, by its identifier (`RoundedShares.LargerWeightGetsLess`). One larger by more than
  two units of its last digit never gets less (`RoundedShares.LargerWeightGetsNoLess`), nor does any larger
  computed quota (`RoundedShares.FairQuotas`).
* A Musharaka profit or loss of as many digits as the precision fails its conservation check exactly when
  both shares end in one half above an odd unit (`Musharaka.ProfitFailsExactly`,
  `Musharaka.LossFailsExactly`, `Musharaka.LargeResultFails`), and any result exactly when the whole units
  of its rounded shares exceed it (`Musharaka.FailsExactlyByFloors`).
* The Moutanaqissa ratio invariant fires with inexact sums (`Moutanaqissa.InexactSumsFire`); with exact ones
  only where the guards let zero capitals and a purchase of zero pass
  (`Moutanaqissa.RatioInvariantFiresExactly`, `Moutanaqissa.ZeroCapitalsFire`).
* The journal check accepts a line whose other side is negative. Only the column constraints exclude it, and
  they admit an accepted journal exactly when none of its texts writes a negative number
  (`Journal.NegativeSidesAreAccepted`, `Journal.ColumnsAdmitExactly`); the journals the system builds are
  always admitted (`AllocationJournal.BuiltJournalsAreAdmitted`).
* The audit query reads an `inet` column as text, which shows the mask. An event recorded with a bare
  source address, as denied accesses are, is reported as a broken chain ever after
  (`AuditQuery.BareAddressBreaksTheTrail`, `AuditQuery.GenuineChain`). The query does not check signatures:
  rewriting the very last event with a recomputed hash, or removing the newest events, is not reported
  (`AuditQuery.TamperingIsReported`, `AuditQuery.RemovalIsReported`).
* A batch keeps the row count and total of its first delivery while the signature is checked on those of a
  later one; registration compares only checksum and object key. Rows that add up to the unsigned total are
  published (`CbsProtocol.DisagreeingManifests`), unless all deliveries announce the same
  (`CbsProtocol.AgreeingManifests`).
* Inbox completion and abandonment are not fenced: a handler that outlasts five minutes can be overtaken
  and can then delete the row of its successor (`Inbox.OutlastingHandlerIsOvertaken`,
  `Inbox.AbandonIsNotFenced`); prompt handlers exclude the overlap (`Inbox.PromptEffectsNeverOverlap`).
* The asset sweep also examines dates before the requested period and refuses some requests that fit
  (`AssetAllocation.EarlierStartsRefuse`, `AssetAllocation.FitsExactly`); a replay of an accepted allocation
  counts it twice (`AssetAllocation.ReplayIsExistingExactly`); two commands that pass the check together are
  safe exactly when they fit together, and only the insert trigger makes all of them safe
  (`AssetAllocation.ChecksAloneAreSafeExactly`, `AssetAllocation.GuardedSavesAreSafe`).
* Identifiers are accepted in capitals, while a uuid column gives them back in lower case, and replays
  compare the column's text with the submitted one. Under such an identifier the replay of an asset
  allocation, and of every creation or action of a subscription, is refused as a conflict
  (`AssetAllocation.ReplayIsExistingExactly`, `AssetAllocation.CapitalsConflict`,
  `Subscription.ReplayIsAnsweredExactly`, `Subscription.ReplayedCreation`,
  `Subscription.CapitalsConflict`), and a position is never staged
  (`CbsBatch.FirstStagingSucceedsExactly`).
* With bare line feeds a CSV row loses a carriage return at its end (`Csv.LineFeedRoundTrip`); a staged
  balance written "-0" is reported as a replay conflict (`Money.StagingCheckRefusesExactlyNegativeZero`).

## Model

| member | source | states |
|---|---|---|
| LargestRemainder.DistributeUnits | src/modules/profit-calculation/domain/proportional-allocation.ts:37-53 | floors, sort by remainder and the residual loop give every participant the closed-form share: its floor, plus one unit when fewer participants precede it than units are left over |
| LargestRemainder.ResidualBounds | src/modules/profit-calculation/domain/proportional-allocation.ts:45-53 | fewer units are left over than there are positive remainders, so the residual loop never wraps around |
| LargestRemainder.SharesSumToTotal | src/modules/profit-calculation/domain/proportional-allocation.ts:37-53 | the shares add up to the total |
| LargestRemainder.QuotaRule | src/modules/profit-calculation/domain/proportional-allocation.ts:37-53 | every share is the floor or the ceiling of its exact quota |
| LargestRemainder.ZeroWeightGetsNothing | src/modules/profit-calculation/domain/proportional-allocation.ts:37-53 | a participant of weight zero gets exactly zero |
| LargestRemainder.FairShares | src/modules/profit-calculation/domain/proportional-allocation.ts:46-53 | a larger weight never gets less; of equal weights the earlier identifier never gets less, and at most one unit more |
| LargestRemainder.ServedFirst | src/modules/profit-calculation/domain/proportional-allocation.ts:46-53 | of two participants, one rounded up and the other down, the first has the larger remainder or, on a tie, the earlier identifier |
| LargestRemainder.OrderIndependence | src/modules/profit-calculation/domain/proportional-allocation.ts:46-50 | permuting the participants changes nobody's share |
| LargestRemainder.Optimality | src/modules/profit-calculation/domain/proportional-allocation.ts:37-53 | among all integer vectors with the same sum none deviates less in total from the exact quotas |
| ProportionalAllocation.Normalize | src/modules/profit-calculation/domain/proportional-allocation.ts:20-33 | the loop over the weights refuses, or reads, exactly what the specification does, in the same order |
| ProportionalAllocation.NormalizedAccepts | src/modules/profit-calculation/domain/proportional-allocation.ts:20-33 | weights are accepted exactly when identifiers are present and distinct and every weight is a canonical non-negative decimal of at most twelve fraction digits |
| ProportionalAllocation.AllocateProportionally | src/modules/profit-calculation/domain/proportional-allocation.ts:16-59 | the whole allocation from decimal texts to decimal texts refines its closed form, with every error |
| ProportionalAllocation.AcceptsExactly | src/modules/profit-calculation/domain/proportional-allocation.ts:20-35 | weights are accepted if and only if there are some, identifiers are present and distinct, every text is a canonical decimal of at most twelve fraction digits and not below zero, and one of the numbers written is positive |
| ProportionalAllocation.FirstBadEntryRefuses | src/modules/profit-calculation/domain/proportional-allocation.ts:20-33 | otherwise the first bad entry decides the refusal, by its identifier before its weight |
| ProportionalAllocation.WithoutWeightRefuses | src/modules/profit-calculation/domain/proportional-allocation.ts:20-32 | weights are refused for being none, or for writing nothing but zero, exactly then |
| ProportionalAllocation.SharesOfTexts | src/modules/profit-calculation/domain/proportional-allocation.ts:37-69 | from text to text: under its own identifier every participant is paid less than one minor unit away from the distributable amount times the number its weight writes, over the sum of the numbers written |
| ProportionalAllocation.PaidInOrder | src/modules/profit-calculation/domain/proportional-allocation.ts:46-58 | a larger written weight is never paid less, gain or loss; of equal ones the earlier identifier is never paid less, and at most one unit more |
| ProportionalAllocation.AmountsSumToDistributable | src/modules/profit-calculation/domain/proportional-allocation.ts:54-58 | the printed amounts, read back, add up to the distributable amount, gain or loss |
| ProportionalAllocation.LossesMirrorGains | src/modules/profit-calculation/domain/proportional-allocation.ts:34-58 | negating the distributable amount negates every printed amount |
| ProportionalAllocation.AllocationIgnoresOrder | src/modules/profit-calculation/domain/proportional-allocation.ts:46-58 | the same weights in another order are accepted alike and pay every participant the same text |
| ProportionalAllocation.ChecksumIgnoresOrder | src/modules/profit-calculation/application/execute-profit-calculation.ts:57-65 | the content the output checksum is taken of depends only on the sets of weights and explanation inputs |
| ProportionalAllocation.ChecksumContentExists | src/modules/profit-calculation/application/execute-profit-calculation.ts:57-65 | that content is made if and only if the weights are accepted and every participant has an explanation input |
| ProportionalAllocation.ChecksumContentHolds | src/modules/profit-calculation/application/execute-profit-calculation.ts:57-65 | it is all the allocations in ascending order of the identifiers, beside each the explanation built from the participant's own input and that allocation |
| TruncatedDecimals.CutError | libs/engine/src/moudaraba-allocation.ts:3 | cutting to the precision never increases a number, loses less than a unit of its last digit, and keeps zero and positive apart |
| RoundedShares.DistributeUnits | libs/engine/src/moudaraba-allocation.ts:142-160 | whole units of the cut quotas, sort by remainder and the residual loop, with its wrap around the list, give every participant the closed-form share |
| RoundedShares.SharesSumToTotal | libs/engine/src/moudaraba-allocation.ts:151-159 | the shares add up to the total if and only if the whole units do not exceed it |
| RoundedShares.ExactWeightsLeaveNoDebt | libs/engine/src/moudaraba-allocation.ts:144-151 | with an exact sum of the weights they never do, whatever the total |
| RoundedShares.CoveredLeavesNoDebt | libs/engine/src/moudaraba-allocation.ts:144-151 | nor does a total that, times the number of participants, leaves one digit of the precision free |
| RoundedShares.ResidualBounds | libs/engine/src/moudaraba-allocation.ts:151-158 | for a total that fits, the residual is between zero and the number of participants with a remainder, so the loop never wraps |
| RoundedShares.ZeroWeightGetsNothingExactly | libs/engine/src/moudaraba-allocation.ts:146-158 | a weight of zero gets nothing if and only if the residual does not exceed its place in the list |
| RoundedShares.ZeroWeightGetsNothing | libs/engine/src/moudaraba-allocation.ts:146-158 | for a total that fits, a weight of zero gets nothing |
| RoundedShares.ServedFirst | libs/engine/src/moudaraba-allocation.ts:152-158 | a participant that gets more of the units left over than another has the larger remainder or, on a tie, the earlier identifier |
| RoundedShares.FairQuotas | libs/engine/src/moudaraba-allocation.ts:144-158 | a larger computed quota gets no less; of equal ones the earlier identifier gets no less, and at most one unit more |
| RoundedShares.LargerWeightGetsNoLess | libs/engine/src/moudaraba-allocation.ts:144-158 | a weight that is larger by more than two units of its p-th digit never gets less |
| RoundedShares.LargerWeightGetsLess | libs/engine/src/moudaraba-allocation.ts:144-158 | at every precision p, of one unit the weight 10^p with the earlier identifier gets it and 10^p + 1 nothing |
| RoundedShares.QuotaRule | libs/engine/src/moudaraba-allocation.ts:144-158 | for a total that fits every share lies less than two units from the total times its weight over the exact sum of the weights, and less than one above it when that sum is exact |
| Moudaraba.AllocateUnits | libs/engine/src/moudaraba-allocation.ts:142-160 | one apportionment of distinct participants refines its specification, with the refusal of no weights and of weights that total zero |
| Moudaraba.AllocateByFixedCategoryKey | libs/engine/src/moudaraba-allocation.ts:104-140 | the map of categories and the nested allocation refine their specification, refusals and unreadable keys included |
| Moudaraba.AllocateMoudarabaProfit | libs/engine/src/moudaraba-allocation.ts:47-102 | the three-level allocation from decimal texts, with its two invariant checks, refines its specification at sixty digits |
| Moudaraba.SharesFromInput | libs/engine/src/moudaraba-allocation.ts:63-102 | every part of a short profit from the input alone: bank and investors less than two units from their parts by the Nisba, the IRR allocation taken off, the accounts less than two units from their parts by basis, or less than four from their parts by key and basis |
| Moudaraba.AcceptsExactly | libs/engine/src/moudaraba-allocation.ts:47-102 | a short profit is allocated if and only if the texts are readable, the accounts present and distinct and the Nisba total one, the IRR allocation does not exceed the part of the investors, and the accounts can be paid |
| Moudaraba.RefusalsHold | libs/engine/src/moudaraba-allocation.ts:47-140 | a refused profit, of any size, is refused for a reason that holds of the input; one that fits never for the two invariants |
| Moudaraba.CategoryAccountsShareItsUnits | libs/engine/src/moudaraba-allocation.ts:130-138 | the accounts of each category appear together, and add up to that category's units if and only if their whole units do not exceed them |
| Moudaraba.SkippedCategoryIsEmptyExactly | libs/engine/src/moudaraba-allocation.ts:122-132 | a category skipped for having no account holds no unit if and only if the units left over run out before it |
| Moudaraba.SkippedCategoriesAreEmpty | libs/engine/src/moudaraba-allocation.ts:122-132 | for a total that fits, a skipped category holds no unit |
| Moudaraba.FixedKeyConservesExactly | libs/engine/src/moudaraba-allocation.ts:104-140 | with no level in debt, the account shares add up to the total if and only if the units left over run out before every skipped category |
| Moudaraba.FixedKeyConserves | libs/engine/src/moudaraba-allocation.ts:104-140 | for a total covered on both levels, which fits or has no empty category, all account shares add up to it |
| Moudaraba.FixedKeyAcceptsExactly | libs/engine/src/moudaraba-allocation.ts:104-140 | the keys are accepted exactly when they are distinct and readable, total one as computed, cover every account, and neither an empty category has a key nor a populated one lacks a positive basis |
| Moudaraba.ProfitIsConserved | libs/engine/src/moudaraba-allocation.ts:63-102 | for a profit that fits, bank share, retained reserve and account shares add up to the profit in both methods, and neither invariant error occurs |
| Moudaraba.ExactAveragesConserve | libs/engine/src/moudaraba-allocation.ts:63-102 | at any size the weighted average conserves a profit whose Nisba and bases have exact sums |
| Moudaraba.ShortProfitsFit | libs/engine/src/moudaraba-allocation.ts:3 | whatever the weights, a profit fits when it has fewer digits than the precision even if doubled, or multiplied by the number of accounts or of categories |
| Moudaraba.LongProfitFails | libs/engine/src/moudaraba-allocation.ts:63-95 | at every precision p a profit of 10^p + 3 with a zero Nisba and a zero key raises the conservation error |
| Moudaraba.InexactBasesFail | libs/engine/src/moudaraba-allocation.ts:76-95 | at every precision p bases of p nines and of 9 raise it for a profit of 10^p |
| SignificantDigits.NearestIsHalfEven | libs/engine/src/musharaka-allocation.ts:4 | being nearest, even on a tie, determines the rounded integer |
| SignificantDigits.RoundSigEqualRatios | libs/engine/src/musharaka-allocation.ts:4 | equal ratios round alike, whatever their numerators and denominators |
| SignificantDigits.ExactUnits | libs/engine/src/musharaka-allocation.ts:4 | a number that fits the precision keeps its exact value |
| Moutanaqissa.RatiosTotalOne | libs/engine/src/musharaka-allocation.ts:111-114 | the two ratios of any positive total, each rounded to the precision, add up and round to exactly one |
| Moutanaqissa.BuildMoutanaqissaSchedule | libs/engine/src/musharaka-allocation.ts:96-132 | the loop over the purchases with its two running capitals refines the specification at sixty digits |
| Moutanaqissa.RatioInvariantNeverFires | libs/engine/src/musharaka-allocation.ts:96-122 | with some capital, and a total and capitals that rounding keeps, the invariant error never occurs; schedules are refused exactly for period order, for buying too much, or for capital left at maturity; the two capitals always add up to the total |
| Moutanaqissa.EveryPurchaseHasItsPeriod | libs/engine/src/musharaka-allocation.ts:103-123 | with exact sums every purchase has its period in the schedule, in order: the bank holds its capital less everything bought so far, the partner the rest of the total, and the ratios are those capitals over the total, rounded, adding up to one |
| Moutanaqissa.RefusalsHold | libs/engine/src/musharaka-allocation.ts:96-126 | with exact sums a refused schedule is refused for a reason that holds: periods out of order, more bought than there is, or capital left at maturity |
| Moutanaqissa.ShortCapitalsKept | libs/engine/src/musharaka-allocation.ts:96-110 | rounding keeps every capital of a schedule whose total has at most 10^p units |
| Moutanaqissa.RatioInvariantFiresExactly | libs/engine/src/musharaka-allocation.ts:96-114 | with exact sums the invariant fires if and only if there is no capital and the first purchase, in a positive period, is of zero |
| Moutanaqissa.ZeroCapitalsFire | libs/engine/src/musharaka-allocation.ts:101-114 | two zero capitals and a purchase of zero make it fire at every precision |
| Moutanaqissa.InexactSumsFire | libs/engine/src/musharaka-allocation.ts:101-114 | at every precision two capitals of all nines and one unit bought make the invariant fire |
| Musharaka.Split | libs/engine/src/musharaka-allocation.ts:156-167 | the residual of the two floors is added in place to the part with the larger fraction |
| Musharaka.SmallResultsConserve | libs/engine/src/musharaka-allocation.ts:60-94 | profits and losses of fewer digits than the precision are split into parts of the right sign that add up to the result, whatever the capitals and the accepted ratios, so the conservation error never occurs |
| MusharakaShares.ProfitShares | libs/engine/src/musharaka-allocation.ts:60-82 | a profit of fewer digits than the precision: the bank's part lies within 21/20 of a unit of the profit times the bank's ratio, the partner's of the profit times the partner's, within one unit when the ratios reach one, and each equals it when it is whole |
| MusharakaShares.LossShares | libs/engine/src/musharaka-allocation.ts:88-94 | a shared loss of fewer digits: each side bears its capital over the sum of both times the loss, to 11/5 of a unit, or 6/5 when that sum is not rounded |
| MusharakaShares.UnsharedResults | libs/engine/src/musharaka-allocation.ts:79-87 | a result of zero shares nothing, and a loss the bank is liable for is the bank's alone |
| MusharakaShares.AcceptsExactly | libs/engine/src/musharaka-allocation.ts:60-94 | a result of fewer digits than the precision is allocated if and only if no ratio exceeds one, both total one as rounded, the passive side keeps its limit, and a loss to be shared meets some capital |
| MusharakaShares.RefusalsHold | libs/engine/src/musharaka-allocation.ts:60-94 | a refused result is refused for a reason that holds of the input; one of fewer digits than the precision never for its conservation |
| MusharakaShares.PassiveIsLimited | libs/engine/src/musharaka-allocation.ts:72-77 | a passive side is refused for its own ratio above that of its own capital by more than 55/100 of a unit of the p-th digit, and not for one below it by as much |
| MusharakaShares.EqualRatiosPass | libs/engine/src/musharaka-allocation.ts:72-77 | a profit ratio equal to the capital ratio is not refused, if neither is rounded |
| Musharaka.SplitFailsExactly | libs/engine/src/musharaka-allocation.ts:156-167 | for ratios that total one and totals of at most p digits the two parts miss the total if and only if both exact shares have p digits and end in one half above an odd unit |
| Musharaka.ProfitFailsExactly | libs/engine/src/musharaka-allocation.ts:60-78 | a profit raises the conservation error exactly there |
| Musharaka.LossFailsExactly | libs/engine/src/musharaka-allocation.ts:79-94 | a loss shared by capital ratios that total one raises it exactly there too |
| Musharaka.FailsExactlyByFloors | libs/engine/src/musharaka-allocation.ts:60-94 | for every input, a result that is shared raises the conservation error if and only if the whole units of its two rounded shares exceed it |
| Musharaka.ProfitsUpToTwiceConserve | libs/engine/src/musharaka-allocation.ts:60-78 | so profits up to 2 * 10^(p-1) + 2 conserve |
| Musharaka.LargeResultFails | libs/engine/src/musharaka-allocation.ts:134-167 | the next result, shared half and half, fails, as a profit by its ratios and as a loss by its capitals |
| Money.ParsePrinted | src/shared-kernel/money.ts:8-51 | parsing a printed amount gives the amount back, at every sign, size and scale |
| Money.PrintParsed | src/shared-kernel/money.ts:8-51 | a parsed text is printed with its fraction padded and a negative zero unsigned, and otherwise as it was |
| Money.ReconcileAccepts | src/modules/accounting/domain/reconciliation.ts:3-24 | a reconciliation is accepted exactly when both amounts fit the scale once trailing zeros are ignored |
| Money.ReconcileIsNumeric | src/modules/accounting/domain/reconciliation.ts:3-24 | MATCHED is answered exactly for numerically equal amounts, and the difference denotes their difference |
| Money.CompareUnsignedIsNumeric | src/modules/identity-access/domain/authorization.ts:136-153 | the textual comparison of unsigned decimals of any length agrees with their numeric order |
| Money.DecimalEqualIsNumeric | src/modules/cbs-ingestion/application/validate-investment-positions.ts:41-49 | the comparison of manifest totals is numeric equality |
| Money.StagingCheckRefusesExactlyNegativeZero | src/infrastructure/persistence/postgres-investment-position-staging.repository.ts:31-36 | of all accepted balances exactly the negative zeros are reported as replay conflicts |
| Journal.AssertBalancedJournal | src/modules/accounting/domain/balanced-journal.ts:25-42 | the loop with its map of totals per currency finds the first refusal, or none |
| Journal.CheckAcceptsExactly | src/modules/accounting/domain/balanced-journal.ts:25-42 | a journal is accepted if and only if it has two lines, every line has an account code of the ledger's alphabet, a currency, two amounts that fit the scale and exactly one that writes a positive number, and in every currency the debits and credits add up to the same |
| Journal.CheckRefusalsHold | src/modules/accounting/domain/balanced-journal.ts:25-42 | a refused journal is refused for a reason that holds of one of its lines, of their number or of one currency |
| Journal.ColumnsAdmitExactly | database/migrations/013_reserves_and_accounting_ledger.sql:34-44 | the columns admit the lines of an accepted journal if and only if none of its texts writes a negative number |
| Journal.NegativeSidesAreAccepted | src/modules/accounting/domain/balanced-journal.ts:29-36 | a balanced journal with a negative side on every line is accepted, at every scale |
| Journal.ReversalIsInvolution | src/modules/accounting/domain/balanced-journal.ts:11-23 | an accepted journal can always be reversed and reversing twice gives it back |
| Journal.ReversalCancels | src/modules/accounting/domain/balanced-journal.ts:11-23 | a journal and its reversal cancel on every account and in every currency |
| Journal.BuildAllocationJournal | src/modules/accounting/domain/balanced-journal.ts:44-73 | pushing line after line and checking at the end refines the specification, errors included |
| AllocationJournal.BuiltJournalsAreAdmitted | src/modules/accounting/domain/balanced-journal.ts:44-73 | every journal built from an allocation, and its reversal, satisfies the column constraints |
| AllocationJournal.AllocatorJournalAccepts | src/modules/accounting/domain/balanced-journal.ts:44-73 | a journal built from an allocator result is accepted exactly when the total and every share are not zero |
| AllocationJournal.AllocatorJournalAdds | src/infrastructure/persistence/postgres-accounting-reconciliation.repository.ts:41-54 | the journal of a distribution adds the distributable amount to the investment subledger of its currency and nothing to any other |
| AllocationJournal.EachAccountGetsItsOwn | src/modules/accounting/domain/balanced-journal.ts:44-73 | account by account: the journal credits every participant's own account with exactly its allocated amount, or debits its loss, debits the pool with the distributable amount, and touches no other account |
| AllocationJournal.StoredAmountReads | src/infrastructure/persistence/postgres-accounting-posting.repository.ts:37-64 | a stored amount can be read at a scale exactly when that scale is twelve |
| RunLifecycle.Repositories.ExecuteAtomically | src/infrastructure/persistence/postgres-calculation-execution.repository.ts:13-87 | the calculation transaction: its whole new state, or a refusal that changes nothing |
| RunLifecycle.Repositories.TransitionAction | src/infrastructure/persistence/postgres-workflow-approval.repository.ts:11-142 | control and approval of a run, with replays and unique actions |
| RunLifecycle.Repositories.PostAtomically | src/infrastructure/persistence/postgres-accounting-posting.repository.ts:13-114 | the posting transaction with its journal, status and action |
| RunLifecycle.Repositories.ReverseAtomically | src/infrastructure/persistence/postgres-accounting-reversal.repository.ts:11-114 | the reversal transaction, at most one per journal and none of a reversal |
| RunSafety.AllocationsAlwaysConserve | src/infrastructure/persistence/postgres-calculation-execution.repository.ts:58-66 | the conservation check after the inserts never fails |
| RunSafety.FourEyes | src/infrastructure/persistence/postgres-workflow-approval.repository.ts:96-142 | after any commands a run from APPROVED on has pairwise distinct maker, controller and approver, and it is posted exactly when it has a journal, which is then its only one and not its maker's |
| RunSafety.CalculatedRunsConserve | src/infrastructure/persistence/postgres-calculation-execution.repository.ts:29-78 | after any commands the allocations of a calculated run add up to its distributable amount |
| RunSafety.LaterFollows | src/infrastructure/persistence/postgres-workflow-approval.repository.ts:96-142 | statuses only move forward; inputs, signers, results, actions and journals recorded once never change |
| RunSafety.ApprovalIsOnRecord | src/infrastructure/persistence/postgres-workflow-approval.repository.ts:119-142 | every run past CONTROLLED was approved by a command of its approver that met the certification and purification conditions |
| RunSafety.JournalsAreOnRecord | src/infrastructure/persistence/postgres-accounting-posting.repository.ts:53-97 | every journal was written by one posting or reversal command of its creator, on an unblocked run or on the date given |
| RunSafety.ReplayedTransition | src/infrastructure/persistence/postgres-workflow-approval.repository.ts:80-94 | repeating a control or approval with its key at any later time answers the same state and changes nothing |
| RunSafety.ReplayedPosting | src/infrastructure/persistence/postgres-accounting-posting.repository.ts:20-36 | repeating a posting with its key at any later time answers the same journal and changes nothing |
| RunSafety.ReplayedReversal | src/infrastructure/persistence/postgres-accounting-reversal.repository.ts:18-37 | repeating a reversal with its key and date at any later time answers the same journal and changes nothing |
| RunSafety.ReconciledSubledgerIsPostedMinusReversed | src/infrastructure/persistence/postgres-accounting-reconciliation.repository.ts:41-54 | in every reachable ledger, at every date and currency, the reconciled subledger is what was posted minus what was reversed |
| RunSafety.PostingSucceedsExactly | src/infrastructure/persistence/postgres-accounting-posting.repository.ts:37-97 | in every reachable state a posting under a key not used for one succeeds if and only if the key is free, the run approved, its maker another, nothing blocks it, neither total nor any share is zero, and the currency has twelve fraction digits |
| RunCommands.ControlSucceedsExactly | src/infrastructure/persistence/postgres-workflow-approval.repository.ts:96-142 | in every reachable state a control under a fresh key succeeds if and only if the run is calculated and the actor not its maker; it signs that run alone |
| RunCommands.ApprovalSucceedsExactly | src/infrastructure/persistence/postgres-workflow-approval.repository.ts:96-142 | an approval if and only if the run is controlled, the actor neither maker nor controller, a production run's opening balances are certified and no purification is pending |
| RunCommands.SignatureRefusalsHold | src/infrastructure/persistence/postgres-workflow-approval.repository.ts:96-142 | in every reachable state a refused control or approval under a fresh key is refused for a reason that holds, never for a duplicate action |
| RunCommands.PostingChanges | src/infrastructure/persistence/postgres-accounting-posting.repository.ts:53-97 | a posting appends one journal, of its run and actor, dated as the run, and moves that run alone to POSTED |
| RunCommands.PostingRefusalsHold | src/infrastructure/persistence/postgres-accounting-posting.repository.ts:37-97 | a refused posting whose key was not used for one is refused for a reason that holds |
| RunCommands.ReversalSucceedsExactly | src/infrastructure/persistence/postgres-accounting-reversal.repository.ts:38-114 | in every reachable state a reversal under a key not used for one succeeds if and only if the key is free, the journal exists, is no reversal and not reversed, its creator is another, and the currency has twelve fraction digits; it appends the swapped lines |
| RunCommands.ReversalRefusalsHold | src/infrastructure/persistence/postgres-accounting-reversal.repository.ts:38-114 | so is a refused reversal |
| RunCommands.CalculationSucceedsExactly | src/infrastructure/persistence/postgres-calculation-execution.repository.ts:29-66 | a snapshot stored at the pool's scale is calculated if and only if the allocator accepts its weights |
| RunCommands.ExecutionSucceedsExactly | src/infrastructure/persistence/postgres-calculation-execution.repository.ts:13-87 | an execution succeeds if and only if the run is new or known with these inputs, and calculated already or a draft with a snapshot that can be calculated; it changes no other run |
| Outbox.PostgresOutboxRepository.ClaimPending | src/infrastructure/persistence/postgres-outbox.repository.ts:31-54 | a claim leases the oldest claimable rows not locked by others, as many as the limit allows |
| Outbox.PostgresOutboxRepository.MarkPublished | src/infrastructure/persistence/postgres-outbox.repository.ts:56-66 | only the owner of the lease closes a row |
| Outbox.PostgresOutboxRepository.MarkFailed | src/infrastructure/persistence/postgres-outbox.repository.ts:68-78 | only the owner of the lease reschedules a row |
| Outbox.RetriesBackOff | src/infrastructure/messaging/outbox-relay.ts:47-53 | a retry is never sooner after more failures and never more than an hour away |
| Outbox.DelaysDouble | src/infrastructure/messaging/outbox-relay.ts:47-53 | the first retry waits the base, every further one twice as long, up to an hour and to ten doublings |
| Outbox.OutboxRelay.RunBatch | src/infrastructure/messaging/outbox-relay.ts:19-44 | an undisturbed batch leaves every claimed row confirmed and closed, or failed and rescheduled, and no other row changed |
| Outbox.PublishedWasConfirmed | src/infrastructure/messaging/outbox-relay.ts:27-41 | over every interleaving a row is marked published only after the broker confirmed its message |
| Outbox.PublishedRowsAreFinal | src/infrastructure/persistence/postgres-outbox.repository.ts:31-77 | a published row never changes again |
| Outbox.RowTellsItsHistory | src/infrastructure/persistence/postgres-outbox.repository.ts:56-78 | over every run a row was enqueued once, with the creation time it shows; it counts exactly the failures recorded by relays that owned it, is due when the last of them said, and shows its reason until it is published |
| Outbox.PublishedByItsOwner | src/infrastructure/persistence/postgres-outbox.repository.ts:56-66 | a published row shows the time of the batch whose relay, still its owner, published it |
| Outbox.LostLeaseIsHarmless | src/infrastructure/persistence/postgres-outbox.repository.ts:56-77 | a worker that lost its lease and does not claim the row again cannot change it |
| Outbox.LeaseExcludes | src/infrastructure/persistence/postgres-outbox.repository.ts:31-52 | over every run, as long as its owner does not release it, a leased row stays leased and no claim up to the end of the lease takes it |
| Outbox.ClaimsExclude | src/infrastructure/persistence/postgres-outbox.repository.ts:31-52 | so no second claim of a run takes a row while the lease of the first runs |
| Outbox.UnpublishedStaysClaimable | src/infrastructure/persistence/postgres-outbox.repository.ts:31-77 | every unpublished row can be claimed at every time past the lease and the longest delay |
| Outbox.WideClaimTakesAll | src/infrastructure/persistence/postgres-outbox.repository.ts:34-46 | a claim with room takes every claimable row that is not locked |
| Outbox.OldestFirst | src/infrastructure/persistence/postgres-outbox.repository.ts:34-46 | a claim takes only rows that are due, unpublished and under no running lease, and leaves such a row only when it is full of rows due earlier, or at the same time and created no later |
| Inbox.PostgresInboxRepository.Begin | src/infrastructure/persistence/postgres-inbox.repository.ts:10-24 | a message is acquired by inserting its row or by taking over an unfinished one after five minutes |
| Inbox.PostgresInboxRepository.Complete | src/infrastructure/persistence/postgres-inbox.repository.ts:26-33 | a completion is recorded by key |
| Inbox.PostgresInboxRepository.Abandon | src/infrastructure/persistence/postgres-inbox.repository.ts:35-41 | an unfinished row is deleted by key |
| Inbox.IdempotentConsumer.Handle | src/infrastructure/messaging/idempotent-consumer.ts:9-24 | the effect starts exactly when the row is acquired; success leaves it completed, failure leaves none |
| Inbox.CompletionIsFinal | src/infrastructure/persistence/postgres-inbox.repository.ts:10-41 | once a completion is recorded no later begin of that message succeeds |
| Inbox.DeliveryStartsExactly | src/infrastructure/persistence/postgres-inbox.repository.ts:10-24 | over every run a delivery starts its handler if and only if none was started since the row last appeared, or the last one was started more than five minutes ago and no completion is recorded |
| Inbox.RowTellsItsAcquisitions | src/infrastructure/persistence/postgres-inbox.repository.ts:10-24 | a row counts its acquisitions and shows the time of the last one |
| Inbox.PromptEffectsNeverOverlap | src/infrastructure/messaging/idempotent-consumer.ts:13-23 | as long as no live handler outlasts five minutes two effects for one message never overlap |
| Inbox.OutlastingHandlerIsOvertaken | src/infrastructure/persistence/postgres-inbox.repository.ts:15-21 | a redelivery overlaps a running handler exactly when that one has outlasted five minutes |
| Inbox.AbandonIsNotFenced | src/infrastructure/persistence/postgres-inbox.repository.ts:35-41 | a run in which an overtaken handler deletes its successor's row and a third effect starts beside it |
| CanonicalJson.CanonicalIsText | src/modules/audit/domain/audit-chain.ts:76-94 | filtering, sorting and printing is printing the document of the value |
| JsonGrammar.ParseText | src/modules/audit/domain/audit-chain.ts:76-94 | a JSON parser reads every document back from its text, whatever follows it |
| JsonGrammar.TextIsInjective | src/modules/audit/domain/audit-chain.ts:76-94 | equal texts are texts of equal documents |
| JsonEquality.CanonicalIsFaithful | src/modules/audit/domain/audit-chain.ts:76-94 | exactly the values JSON can express are accepted, and two of them have equal text if and only if they are equal up to key order, undefined entries and the sign of zero |
| JsonEquality.ParseCanonical | src/modules/audit/domain/audit-chain.ts:76-94 | the parser is a left inverse of the canonical text |
| AuditChain.HashIsFaithful | src/modules/audit/domain/audit-chain.ts:53-62 | two drafts hash alike exactly when their content and their predecessor hash are the same |
| AuditChain.HashedTextHolds | src/modules/audit/domain/audit-chain.ts:53-62 | the hashed text reads back as an object with ascending keys that holds every part of the draft and the predecessor's hash under its own name, and nothing under the names of absent parts |
| AuditTrail.PostgresAuditRepository.AppendEvent | src/infrastructure/persistence/postgres-audit.repository.ts:17-57 | an append under the lock: the recorded event again, a conflict, or one new event after the last |
| AuditTrail.AppendKeepsChain | src/infrastructure/persistence/postgres-audit.repository.ts:17-57 | an append keeps the chain valid and leaves exactly one event of that identifier with that content |
| AuditTrail.AppendSucceedsExactly | src/infrastructure/persistence/postgres-audit.repository.ts:17-57 | an append succeeds if and only if the changes can be hashed and the identifier is recorded with this content, or is new and the signature not empty; the new event holds draft, key and signature as given |
| AuditTrail.AppendIsIdempotent | src/infrastructure/persistence/postgres-audit.repository.ts:22-44 | a repeated append answers the same hash and changes nothing |
| AuditTrail.ReuseIsAnotherContent | src/infrastructure/persistence/postgres-audit.repository.ts:33-37 | an identifier is refused exactly when it was recorded with another content |
| AuditTrail.HashesAreDistinct | src/infrastructure/persistence/postgres-audit.repository.ts:45-57 | no two events share a hash or a predecessor hash |
| AuditQuery.QueryAuditTrail.Execute | src/modules/audit/application/query-audit-trail.ts:33-50 | the loop reports the first broken position of the window, and the shown events are the last matching ones |
| AuditQuery.ShownEvents | src/infrastructure/persistence/postgres-audit-trail.repository.ts:20-44 | the shown events are events of the window in the order of the log, read back, each passing the six filters, written out |
| AuditQuery.ShowsTheLastMatching | src/modules/audit/application/query-audit-trail.ts:33-39 | a passing event of the window that is not shown stands before all that are, and only when as many are shown as were asked for |
| AuditQuery.GenuineChain | src/modules/audit/application/query-audit-trail.ts:40-48 | a chain built by appends alone is reported broken exactly at the first event whose texts the columns do not give back as written |
| AuditQuery.BareAddressBreaksTheTrail | src/infrastructure/persistence/postgres-audit-trail.repository.ts:31-44 | no window that reaches an event is verified beyond it when the column shows its source address in another text, as it does a bare one |
| AuditQuery.TamperingIsReported | src/modules/audit/application/query-audit-trail.ts:40-48 | an altered event is reported at itself or at its successor, save the last event rewritten consistently |
| AuditQuery.RemovalIsReported | src/infrastructure/persistence/postgres-audit-trail.repository.ts:34-38 | events removed before a remaining one are reported at that one, as the first broken event of every window that reaches it; removing the newest events is never reported |
| AuditPipeline.AuditedAtMostOnce | apps/audit-worker/src/audit-message-handler.ts:22-39 | over every interleaving of deliveries, takeovers and crashes the log is a valid chain with at most one entry per outbox event, holding that event's content |
| Texts.TrimCuts | apps/audit-worker/src/audit-message-handler.ts:59-66 | trimming cuts white space at both ends, and all of it |
| AuditPipeline.EntriesRecordTheirMessage | apps/audit-worker/src/audit-message-handler.ts:22-70 | in every reachable state the entry of a message records it field by field: actor, action, resource, justification and result state from their own payload fields, trimmed, date, session and address as sent, outcome SUCCESS |
| AuditPipeline.EffectSucceedsExactly | apps/audit-worker/src/audit-message-handler.ts:16-70 | in every reachable state a running handler gets its message into the log, or finds it there, if and only if its fields are present and well formed and, unless it is recorded already, the signature is not empty |
| AuditPipeline.LogOnlyGrows | src/infrastructure/persistence/postgres-audit.repository.ts:17-57 | entries are never changed or removed |
| AuditPipeline.RedeliveryNeverConflicts | apps/audit-worker/src/audit-message-handler.ts:22-42 | a handler's append is never refused as a reused identifier |
| AuditPipeline.ProcessedIsAudited | src/infrastructure/messaging/idempotent-consumer.ts:13-19 | a message recorded as processed is in the log under the recorded hash |
| AuditPipeline.WindowsOfEveryRun | src/modules/audit/application/query-audit-trail.ts:40-48 | in every reachable state every window is verified up to its first event that is not read back as written |
| CbsBatch.CbsBatchRepository.RegisterReceived | src/infrastructure/persistence/postgres-cbs-batch.repository.ts:12-38 | the first delivery creates the batch, a later one finds it or conflicts |
| CbsBatch.CbsBatchRepository.TransitionTo | src/infrastructure/persistence/postgres-cbs-batch.repository.ts:40-55 | a guarded transition moves the batch or changes nothing |
| CbsBatch.CbsBatchRepository.StageRows | src/infrastructure/persistence/postgres-investment-position-staging.repository.ts:11-49 | the staging transaction inserts or compares every row and rolls back on the first conflict |
| CbsBatch.FirstStagingSucceedsExactly | src/infrastructure/persistence/postgres-investment-position-staging.repository.ts:11-49 | rows are staged for the first time if and only if their keys are distinct and the columns give back every row as it was written; an account identifier in another spelling is a conflict |
| CbsBatch.CbsBatchRepository.Validate | src/modules/cbs-ingestion/application/validate-investment-positions.ts:21-38 | the collected failures decide between VALIDATED and REJECTED |
| CbsBatch.CbsBatchRepository.PublishPositions | src/infrastructure/persistence/postgres-investment-position-publication.repository.ts:20-88 | the publication transaction approves, publishes and inserts each staged row once |
| CbsBatch.WindowIsCyclic | src/modules/cbs-ingestion/application/authenticate-cbs-manifest.ts:52-56 | the ingestion window is the hours from its start to its end around the clock |
| CbsBatch.CbsBatchMessageHandler.Handle | apps/ingestion-worker/src/cbs-batch-message-handler.ts:26-80 | one undisturbed delivery, resumed from any stored state, step by step |
| CbsBatch.DeliveryResumes | apps/ingestion-worker/src/cbs-batch-message-handler.ts:41-78 | from every state that is not terminal one delivery of an orderly batch publishes it |
| CbsBatch.FirstDeliveryEnds | apps/ingestion-worker/src/cbs-batch-message-handler.ts:26-80 | where the first delivery of any batch ends, its conditions written out: rejected unless genuine, quarantined unless the object is the announced one and clean, scanned unless its rows can be staged, rejected unless they are acceptable, validated while something blocks, published exactly otherwise |
| CbsBatch.PublishedPositions | src/infrastructure/persistence/postgres-investment-position-publication.repository.ts:55-61 | a position already there keeps its balance, every other staged row becomes one with its balance, and nothing else does |
| CbsProtocol.HistoryIsPath | src/modules/cbs-ingestion/domain/batch-state.ts:8-20 | for any number of concurrent and crashed handlers the state history is a path of the transition table plus repetitions |
| CbsProtocol.TerminalIsFinal | src/modules/cbs-ingestion/domain/batch-state.ts:8-20 | a terminal batch never changes |
| CbsProtocol.PublishedIsEarned | apps/ingestion-worker/src/cbs-batch-message-handler.ts:41-78 | a published batch was signed by its source and received in the window, its object is the one of the registered checksum, exactly its rows were staged, in order of dates and of the batch's business date, their count is the registered one, and the positions are exactly they and hold the registered total |
| CbsProtocol.PublishedPassedEveryStage | src/modules/cbs-ingestion/domain/batch-state.ts:8-20 | the history of a published batch holds RECEIVED, AUTHENTICATED, SCANNED, STAGED, VALIDATED, APPROVED and PUBLISHED in this order |
| CbsProtocol.PublishedWasControlled | apps/ingestion-worker/src/cbs-batch-message-handler.ts:41-78 | before a batch is published an earlier scan found its very object clean, an earlier inspection knew the currency and product of every staged row, and a publication was not blocked |
| CbsProtocol.AgreeingManifests | src/infrastructure/persistence/postgres-cbs-batch.repository.ts:12-38 | when all deliveries announce the same count and total, the registered and the authenticated ones agree |
| CbsProtocol.DisagreeingManifests | src/infrastructure/persistence/postgres-cbs-batch.repository.ts:24-32 | otherwise an object whose rows add up to the registered total is published under a signature of any other total |
| CbsProtocol.RedeliveryFinishes | apps/ingestion-worker/src/cbs-batch-message-handler.ts:41-78 | after any interleaving and any crashes one undisturbed redelivery of an orderly unfinished batch publishes it |
| AssetAllocation.SweepBoundsEveryDate | src/infrastructure/persistence/postgres-asset-allocation.repository.ts:9 | the maximum over finitely many starts bounds the allocated percentage on every date of the requested period |
| AssetAllocation.FitsExactly | src/modules/pooling/domain/asset-allocation.ts:2-3 | a request fits exactly when it fits on every examined date |
| AssetAllocation.OverlapsExactly | src/infrastructure/persistence/postgres-asset-allocation.repository.ts:9 | the bounds of the sweep select exactly the allocations of the asset that share a date with the requested period |
| AssetAllocation.PostgresAssetAllocationRepository.SaveVersion | src/infrastructure/persistence/postgres-asset-allocation.repository.ts:11 | a save inserts a version under a new allocation identifier; one whose key is taken is found if the columns give back its very texts, and conflicts otherwise |
| AssetAllocation.ManageAssetAllocation.AllocateAsset | src/modules/pooling/application/manage-asset-allocation.ts:9 | the checks in their order, then the save |
| AssetAllocation.AllocationSucceedsExactly | src/modules/pooling/application/manage-asset-allocation.ts:9 | a command saves a new version if and only if the asset exists, the request has its form, the asset can take it on its first date and at the start of every allocation that meets its period, no anomaly is open, an approval is given unless it is the asset's first, and key and identifier are new; the version holds what was asked for |
| AssetAllocation.AllocationRefusalsHold | src/modules/pooling/application/manage-asset-allocation.ts:9 | a refused command is refused for a reason that holds |
| AssetAllocation.SerialRunsAreSafe | src/modules/pooling/application/manage-asset-allocation.ts:9 | after any serial commands no asset exceeds one hundred percent on any date |
| AssetAllocation.BothAreSavedExactly | src/infrastructure/persistence/postgres-asset-allocation.repository.ts:11 | two commands are both saved if and only if their keys and their allocation identifiers, as stored, are new and differ |
| AssetAllocation.ChecksAloneAreSafeExactly | src/modules/pooling/application/manage-asset-allocation.ts:9 | two commands that both pass the check before either saves, and are both saved, are safe if and only if no date of both sees more than the whole |
| AssetAllocation.ChecksAloneRace | src/modules/pooling/application/manage-asset-allocation.ts:9 | they need not be: sixty and sixty percent |
| AssetAllocation.GuardedSavesAreSafe | database/migrations/033_asset_allocation_temporal_capacity.sql:2-30 | with the insert trigger every interleaving of saves is safe |
| AssetAllocation.EarlierStartsRefuse | src/infrastructure/persistence/postgres-asset-allocation.repository.ts:9 | a request that fits on every date of its period can be refused for an earlier date |
| AssetAllocation.ReplayIsExistingExactly | src/infrastructure/persistence/postgres-asset-allocation.repository.ts:11 | a replay is recognised if and only if the asset could take the percentage once more, an approval is given, nothing isolates the asset, and six digits and both identifiers were written as their columns give them back; it is a conflict if and only if only the last of these fails |
| AssetAllocation.OtherSpellingConflicts | src/infrastructure/persistence/postgres-asset-allocation.repository.ts:11 | the first allocation of an asset, of at most one half and written in another way than its columns give it back, is accepted and its repetition refused as a conflict |
| AssetAllocation.CapitalsConflict | src/modules/pooling/domain/asset-allocation.ts:2 | so it is for forty percent under an identifier with one capital |
| AssetAllocation.ReplayOfMoreThanHalf | src/modules/pooling/application/manage-asset-allocation.ts:9 | a replay of more than half is always refused |
| Subscription.InvestmentSubscription.Act | src/modules/investment-accounts/domain/investment-subscription.ts:6-7 | every operation of the aggregate, with its forbidden states and refusals |
| Subscription.PostgresInvestmentSubscriptionRepository.TransitionAccount | src/infrastructure/persistence/postgres-investment-subscription.repository.ts:63-111 | the command transaction with replay, withdrawal guard and event |
| Subscription.PostgresInvestmentSubscriptionRepository.CreateAccount | src/infrastructure/persistence/postgres-investment-subscription.repository.ts:35-61 | the creation transaction with replay |
| Subscription.PostgresInvestmentSubscriptionRepository.FindWithBalance | src/infrastructure/persistence/postgres-investment-subscription.repository.ts:165-174 | the balance view sums deposits and withdrawals separately |
| Subscription.LedgerNeverNegative | src/infrastructure/persistence/postgres-investment-subscription.repository.ts:76-88 | over every run of commands and replays the balance after each event is not negative and is the queried deposits minus withdrawals |
| Subscription.ActionSucceedsExactly | src/infrastructure/persistence/postgres-investment-subscription.repository.ts:63-111 | an action under a fresh key on an existing account succeeds if and only if its status, rights, date, actor and own terms allow it; a withdrawal in particular up to the whole balance, deposits minus withdrawals |
| Subscription.ActionRefusalsHold | src/modules/investment-accounts/domain/investment-subscription.ts:6-7 | a refused action is refused for a reason that holds: as forbidden only in a status in which no account is allowed it |
| Subscription.ActionChanges | src/modules/investment-accounts/domain/investment-subscription.ts:6-7 | a successful action appends one event of its own kind, date and actor, sets the status and dates of its kind and nothing else, and leaves every other account alone |
| Subscription.CreationSucceedsExactly | src/infrastructure/persistence/postgres-investment-subscription.repository.ts:35-61 | a creation under a fresh key succeeds if and only if the identifier is new; the account has the customer, terms and maturity date given and one event |
| Subscription.HistoryExplainsStatus | src/modules/investment-accounts/domain/investment-subscription.ts:6-7 | the status is what the history leads to, every activated account accepted both terms, every event was recorded in a status the contract allows it in (deposits and withdrawals only while active), and nothing follows the closing |
| Subscription.LaterFollows | src/infrastructure/persistence/postgres-investment-subscription.repository.ts:63-111 | histories only grow and a closed account never changes again |
| Subscription.ReplayIsAnsweredExactly | src/infrastructure/persistence/postgres-investment-subscription.repository.ts:237-254 | repeating a command with its key at any later time changes nothing; it answers the recorded state if and only if the account identifier was submitted as its column gives it back, and is refused as a conflict otherwise |
| Subscription.ReplayedCreation | src/infrastructure/persistence/postgres-investment-subscription.repository.ts:237-254 | repeating a creation with its key changes nothing; it answers the first state if and only if the maturity date is the same and the identifier was submitted as its column gives it back, and is refused otherwise |
| Subscription.CapitalsConflict | src/infrastructure/persistence/postgres-investment-subscription.repository.ts:250 | a subscription created under an identifier with one capital is accepted and its repetition refused |
| Csv.ParseCsv | src/modules/cbs-ingestion/application/stage-investment-positions.ts:57-76 | the character loop refines the automaton |
| Csv.RoundTrip | src/modules/cbs-ingestion/application/stage-investment-positions.ts:57-76 | every table of non-empty rows, printed with quoted fields, doubled quotes and CR LF, is read back exactly |
| Csv.LineFeedRoundTrip | src/modules/cbs-ingestion/application/stage-investment-positions.ts:69-74 | with bare line feeds a table comes back exactly when no row's last field ends with a carriage return |
| Csv.EverySpellingIsRead | src/modules/cbs-ingestion/application/stage-investment-positions.ts:57-76 | however its fields are written, quoted or bare, a table of rows ended by CR LF is read back exactly |
| Csv.UnendedRowIsRead | src/modules/cbs-ingestion/application/stage-investment-positions.ts:69-76 | so is one whose last row is not ended; that row loses a final CR, and is not seen when it is a single empty field |
| Csv.OpenQuoteIsRefused | src/modules/cbs-ingestion/application/stage-investment-positions.ts:64-73 | a quote that is never closed is an error |
| Csv.PositionsRoundTrip | src/modules/cbs-ingestion/application/stage-investment-positions.ts:33-55 | a printed file of valid positions is read back as those positions, with or without a byte order mark |
| Csv.AcceptsExactly | src/modules/cbs-ingestion/application/stage-investment-positions.ts:33-55 | a file is accepted if and only if it can be read as a table, its first record joins to the header and every other record that is not a blank line has eight columns of the right form; the positions are those records, column by column |

## Left out

- Controllers, modules, guards, tokens, the generated client and the adapters of storage, keys, antivirus, broker and telemetry: wiring and foreign calls; their answers are parameters.
- SQL isolation levels and the row order of unordered queries: every transaction is one atomic step.
- Musharaka.ProfitFailsExactly: requires profit ratios that total exactly one and profits of at most as many digits as the precision, as `Musharaka.LossFailsExactly` does of capital ratios; the condition of `Musharaka.FailsExactlyByFloors` covers every input.
- The printed ratios and amounts of the Moudaraba and Musharaka engines.
- Calculation runs without a maker, which the database admits and every signature refuses.
- Closing periods in the approval repository, acknowledgements, business-event journals, reserves and the discrepancy workflow of a reconciliation.
- Checks of the syntax of identifiers, currencies, timestamps and keys where a parameter stands for their result; calendar parsing: dates are integers or uninterpreted texts.
- Lone surrogates in strings and the exact collation of `localeCompare`.
- Liveness of message processing: a fast redelivery of a crashed message is acknowledged as a duplicate, so eventual processing is not a theorem of this code.
- CbsBatch.CbsBatchRepository.Validate: reads and decides in one step; the protocol in `CbsProtocol` separates the two statements.
- CbsBatch.CbsBatchRepository.PublishPositions: leaves out the tokens written to, and the customer references erased from, the staged rows, and the accounts created from them.
- AssetAllocation.PostgresAssetAllocationRepository.SaveVersion: leaves out foreign keys, and the column constraints the checks before it imply.
- Spellings of one identifier outside the asset and subscription modules and the staged rows: runs, journals, batches and messages are named by values, so the conflict of an approval action repeated under another spelling of the same run is not told apart from that of another run.
- CanonicalJson.CanonicalIsText: does not tell the two type errors apart, undefined values and non-finite numbers, which can be thrown in either order.
- RunLifecycle.Repositories.ExecuteAtomically: keeps the snapshot in place of its checksums; `ProportionalAllocation.ChecksumIgnoresOrder` states what the output checksum depends on.
- AuditTrail.PostgresAuditRepository.AppendEvent: leaves out the format check of a previous hash and column casts that fail.
- Subscription.PostgresInvestmentSubscriptionRepository.TransitionAccount: compares requests by value where the repository compares their hashes; `JsonEquality.CanonicalIsFaithful` justifies it.
