# KEEL: proofs about its money, paycheck, ingestion and recurrence logic

KEEL keeps a household's double-entry books from bank events. Its domain logic is integer TypeScript;
these Dafny modules model the parts with the most state and arithmetic and prove what they promise.
`dafny verify dfyconfig.toml` checks everything.

| file | what it holds |
|---|---|
| `PaycheckTemplate`, `PaycheckGross`, `PaycheckApply`, `PaycheckReconciliation` | gross-up of an observed net deposit through a split template, and the independent checker the result has to satisfy |
| `IngestPlan`, `IngestReconcile`, `IngestReplay` | bank events as a state machine over provider ids and economic keys, its action log, the phases of a batch and its replay |
| `PlaidSync` | the live cursor loop against an arbitrary provider |
| `CivilDate`, `Cadence`, `Timeline` | day arithmetic, cadence dates, the status timeline and projected occurrences |
| `Matching`, `RecurringFits`, `DisjointFits`, `RecurringGrids`, `RecurringDetection`, `Backtest`, `SemimonthlyDrift` | detection of recurring series: grids, greedy matching, choice of fits, backtest |
| `Allocation`, `Splits`, `Journal` | exact division of money, split legs, balanced batches, reversals and revisions |
| `TrialBalance`, `LiveLedger` | the rebuilt trial balance and the live view over whole histories |
| `MoneyText` | one parser and three printers of amounts |
| `Arithmetic`, `Sorting`, `Wrappers` | shared integer facts, the stable library sort, option and result |

Loops of the source are methods proved equal to a specification function or predicate; the laws are
lemmas about those. The main operations are described a second time from raw fields and literal constants,
line by line or kind by kind, without the helpers they share with their specification. Amounts are integers;
their text is modelled in `MoneyText` alone.

## How the model reads the source

- Wire amounts are integers. In the paycheck modules a negative integer stands for a wire string that is
  not canonical non-negative minor units, and `None` for an absent amount. In split parts `None` also
  stands for an amount or a basis-point count the source's own pattern refuses.
- Comparators that use locale collation are parameters, assumed to be total orders (preorders where ties are
  harmless). So is the order of the texts by which the checker sorts its transactions. `createdAt` and `commandId`
  of status events are ranks in that order. The stable library sort is an insertion sort, `Sorting.Sort`.
- An economic key is kept as its three parts; `IngestPlan.RenderedIsInjective` says the string loses nothing.
- The scan over a template compares lines by value where the source compares object identity; the earning
  and the remainder line are each the only one of their class, so the two agree.
- `matchesKey` of the backtest is a predicate `sameSeries`; fingerprints are left out of the rows that carry them.
- The provider is an oracle over the history of request cursors: it may answer differently each time,
  refuse a lease or a call, drop, or send anything.
- Dates are triples; the string order of four-digit dates is `CivilDate.Before`. Cadence anchors are those the
  detector emits: positive intervals and days, and day pairs in order (`RecurringGrids.DayPairs`).
- A group of transactions carries days of four-digit dates, as parsing guarantees. The subset key of the
  detector joins sorted ids with commas; here it is the sorted list.
- The history of `LiveLedger` follows the rows the ledger procedures write
  (`supabase/migrations/20260711140100_c3_link_disconnect_saga.sql:1079-1154`): a revision books a reversal,
  a replacement and a revision row naming all three; a void books a reversal and a revision row without
  replacement and marks the transaction; opening balances belong to no transaction. A step that fails leaves
  the ledger as it was. Account and currency of a posting form a pair; the source joins them with a NUL.
- Currency exponents are a parameter, `None` where the export table has no entry.

## What the proofs found

Each entry names the exact condition, and an instance where the condition alone would not show one.

- The gross of a net deposit is unique exactly when no line is a percentage (`PaycheckGross.GrossIsUniqueExactly`,
  `GrossIsNotUnique`), against `packages/paychecks/src/template.ts:7-8` and `:278-279`; lines 287-296 there say so
  too. Net pay at zero gross is R − ΣF, not 0 as line 329 says; the scan still finds the least gross whenever
  N − R + ΣF is not negative. Below that the early rejection turns away a net that some gross pays exactly when
  net pay dips to it (`PaycheckGross.RejectedYetReachableExactly`, `RejectedYetReachable`).
- The cross-check marked unreachable does fail, for a deduction line outside the deduction kinds that carries
  money or an earning that is no gross kind (`PaycheckApply.CrossCheckExactly`, `EmployerMatchContradicted`,
  `BenefitEarningContradicted`).
- Invalid templates are promised a typed rejection (`packages/paychecks/src/template.ts:344-350`), but line keys
  that repeat or are empty, and a destination whose transaction id is empty, escape as the bare range error of the
  checker, and nothing else does (`PaycheckApply.ApplyPaycheckTemplate`, `WellFormedExactly`).
- A removal that met an unknown id is not safe to deliver again once the id has been added
  (`IngestPlan.RemovalRedelivered`, `ReplayVoidsTheAdd`).
- Of several new adds naming one pending transaction, the paired one loses its key to another
  (`IngestReconcile.LineageGoesTo`, `RivalAddTakesTheKey`).
- A removal that an add of its batch names is lost unless its transaction is voided already, or is pending and one
  of the adds that name it is new: a posted transaction keeps standing, and so does a pending one when every add
  that names it was delivered before (`IngestReconcile.RemovalHonouredExactly`, `RedeliveredAddLosesRemoval`).
- The live view leaves opening balances out, so the trial balance of all postings equals the live one exactly
  when opening balances net to nothing (`LiveLedger.TrialBalanceIsLive`, `OpeningIsNotLive`, `FirstOpening`).
- Detection throws for a group exactly when a transaction falls in the years 1 or 9999
  (`RecurringDetection.DetectInGroup`).
- The detector accepts semimonthly evidence three days off its slot, the backtest only two; for every other cadence
  the backtest reaches at least as far as the detector (`SemimonthlyDrift.BacktestReachesExactly`,
  `SemimonthlyEvidenceBeyondReach`).
- The prompt's printer keeps the sign of a negative zero at exponent 0, and differs in nothing else
  (`MoneyText.PromptPrinterAgreesExactly`).

## Model

| member | source | states |
|---|---|---|
| `PaycheckTemplate.Partition` | packages/paychecks/src/template.ts:176-274 | a template is partitioned exactly when one line is the earning with the derived amount, one the deposit of the remainder, and every other line a reimbursement of a fixed amount, a deduction of a fixed amount, or one of 1 to 9999 basis points, with totals up to 2^63 - 1 and percentages below 10000 together; each field of the result is told line by line, and a rejection names the first line in the way with its fault |
| `PaycheckTemplate.RejectionIsDetermined` | packages/paychecks/src/template.ts:176-274 | no template has two such rejections |
| `PaycheckTemplate.ScanLines` | packages/paychecks/src/template.ts:209-256 | the scan over the middle lines stops exactly at the first line that has a fault, which it names, or takes a total beyond 2^63 - 1, and otherwise collects each class of line and its total |
| `PaycheckGross.NetAtGross` | packages/paychecks/src/template.ts:281-285 | the guarded tax loop computes the net-pay function exactly, or overflows exactly when a product or the running tax total exceeds int64 |
| `PaycheckGross.NetStep` | packages/paychecks/src/template.ts:281-296 | one more unit of gross moves net pay up by at most one unit and down by at most k − 1 units, for k percent lines |
| `PaycheckGross.NetNearLinear` | packages/paychecks/src/template.ts:313-317 | net pay stays within half a unit per percent line of the unrounded linear model |
| `PaycheckGross.LeastGrossInWindow` | packages/paychecks/src/template.ts:298-328 | every net of at least R − ΣF is paid by some gross, and the least such gross over all naturals lies in the scanned window |
| `PaycheckGross.SelectGross` | packages/paychecks/src/template.ts:298-342 | from R − ΣF on, the scan returns the least gross of all naturals that pays the net, or overflow exactly when a guard fires for it: the no-integer-gross rejection never happens |
| `PaycheckGross.GuardsMonotone` | packages/paychecks/src/template.ts:143-153 | if no guard fires at a gross, none fires at a smaller one, so the scan cannot overflow before the answer |
| `PaycheckGross.SmallPaycheckFits` | packages/paychecks/src/template.ts:298-342 | up to ninety billion minor units and percent lines together, no int64 guard can fire |
| `PaycheckGross.GrossIsUniqueExactly` | packages/paychecks/src/template.ts:276-280 | the gross of a net deposit is unique if and only if the template has no percent line |
| `PaycheckGross.GrossIsNotUnique` | packages/paychecks/src/template.ts:276-280 | an instance of two grosses that pay one net |
| `PaycheckGross.RejectedYetReachableExactly` | packages/paychecks/src/template.ts:299-308 | a net below R − ΣF, rejected before the scan, is paid by some gross if and only if net pay dips to it at a gross g with g · (10000 − P) below 5000 · k |
| `PaycheckGross.RejectedYetReachable` | packages/paychecks/src/template.ts:299-308 | an instance of a rejected net that a gross pays |
| `PaycheckReconciliation.ReconcilePaycheck` | packages/paychecks/src/index.ts:53-116 | an input is accepted exactly when it is well formed; the report lists exactly the violations, told kind by kind: pay against gross, pay and reimbursements less each deduction kind against net, deposits against net, each destination kind against its matches, each transaction against its capacity; none twice, totals first, then destinations in component order, then transactions in the order of their texts |
| `PaycheckReconciliation.ViolationsByKind` | packages/paychecks/src/index.ts:36-43 | the sums over the kind sets of the checker are sums with a weight for each kind: pay and reimbursements count for, employer matches and deposits not at all, every other kind against the net |
| `PaycheckReconciliation.ListIsDetermined` | packages/paychecks/src/index.ts:88-107 | there is one list of the violations in that order, so the report is determined by its input |
| `PaycheckReconciliation.AllocateMatches` | packages/paychecks/src/index.ts:71-79 | the two tallies are the amounts allocated to each component and drawn from each transaction, or the first ill-formed match is refused |
| `PaycheckReconciliation.DestinationViolations` | packages/paychecks/src/index.ts:92-98 | a destination is reported exactly when the amount matched to it differs from its own, once and in component order |
| `PaycheckReconciliation.OverallocatedTransactions` | packages/paychecks/src/index.ts:99-107 | a transaction is reported exactly when more is drawn from it than its capacity, in the order of the texts of the tally entries, and missing capacity evidence is refused |
| `PaycheckApply.ApplyPaycheckTemplate` | packages/paychecks/src/template.ts:351-452 | a result deposits exactly the net at the least gross, violates nothing, and carries one component for each line (gross, the fixed amount, the percentage rounded half up, or the net) and one match for each component paid out somewhere. A proper template of distinct keys and plain kinds is accepted up to ninety billion minor units; one that is not proper is rejected with the fault it has. Once a gross is selected exactly one of three things happens: keys not unique or a destination without transaction id escape as the range error of the checker; else it is accepted if and only if the kinds hold together, and turned away by the cross-check if and only if they do not |
| `PaycheckApply.CrossCheckExactly` | packages/paychecks/src/template.ts:428-442 | past the typed rejections, whatever the kind of the earning, the cross-check passes if and only if: with a gross earning no stray deduction line carries money; with a deduction earning only deduction lines of gross kinds do, and carry the gross; with any other earning the gross is nothing and no stray line carries money |
| `PaycheckApply.EmployerMatchContradicted` | packages/paychecks/src/template.ts:428-442 | a template whose pre-tax line is an employer match passes every earlier rejection and is turned away by the cross-check |
| `PaycheckApply.BenefitEarningContradicted` | packages/paychecks/src/template.ts:428-442 | so is a template whose earning is a benefit, except when the net is nothing and a deduction of a gross kind makes up for it |
| `PaycheckApply.CoherentNeverContradicted` | packages/paychecks/src/template.ts:428-442 | with coherent kinds no net is contradicted, and small paychecks are accepted |
| `PaycheckApply.CrossCheckVerdict` | packages/paychecks/src/template.ts:428-442 | for every template with coherent kinds and unique keys the emitted paycheck has no violation |
| `PaycheckApply.WellFormedExactly` | packages/paychecks/src/template.ts:369-431 | the checker can read the emitted paycheck if and only if the line keys are unique and not empty and every line paid out somewhere has a transaction id |
| `PaycheckApply.EmittedIsWellFormed` | packages/paychecks/src/template.ts:369-426 | with unique keys and named destinations the emitted components, matches and capacities are well formed, and no destination or capacity is violated |
| `PaycheckApply.EmittedUnique` | packages/paychecks/src/template.ts:369-401 | emitted component keys are unique if and only if the line keys of the template are |
| `PaycheckApply.EmittedIsPermutation` | packages/paychecks/src/template.ts:369-401 | the emitted lines are the lines of the template rearranged: none is lost, added or emitted twice |
| `PaycheckApply.EmitComponents` | packages/paychecks/src/template.ts:369-401 | the pushes in source order produce one component for each line: earning, reimbursements, fixed, percent, deposit |
| `IngestPlan.ReplaceEconomicView` | packages/ingest/src/plan.ts:76-93 | every alias of the key, and the additional id, carries the new view; nothing else changes |
| `IngestPlan.PlanStream` | packages/ingest/src/plan.ts:202-219 | folding page by page is one run over the events of all pages |
| `IngestPlan.StepKeepsInv` | packages/ingest/src/plan.ts:95-200 | every event keeps: aliases of a key agree, the root id of a key is known and carries it, a view names one of its own ids |
| `IngestPlan.RunKeepsInv` | packages/ingest/src/plan.ts:202-219 | the invariant holds after every run of events |
| `IngestPlan.RenderedIsInjective` | packages/ingest/src/plan.ts:50-51 | within one connection different provider ids give different economic key strings |
| `IngestPlan.CreateIsFresh` | packages/ingest/src/plan.ts:126-136 | a created key is carried by no known id |
| `IngestPlan.EventTakesEffect` | packages/ingest/src/plan.ts:95-200 | field by field: an add or change that is not stale shows the delivered id, account, amount, description and date under its id and every alias (posted when it takes over a pending one, else as delivered, also back to pending), a removal changes the status alone, nothing else moves, and the logged action says just that |
| `IngestPlan.LogIsCompleteJournal` | packages/ingest/src/plan.ts:187-219 | recording the emitted actions on the ledger of the start state gives exactly the ledger of the final state, and each action is truthful about the ledger it met |
| `IngestPlan.LogRebuildsLedger` | packages/ingest/src/plan.ts:187-219 | from the empty state the log alone rebuilds the ledger |
| `IngestPlan.TotalsMoveByDeltas` | packages/ingest/src/plan.ts:187-219 | over truthful actions, the sum and the number of live views move by exactly the deltas of the actions |
| `IngestPlan.LiveTotalsConserved` | packages/ingest/src/plan.ts:187-219 | along any run the live total and the live count change by exactly what the log says |
| `IngestPlan.TotalsFollowDeliveries` | packages/ingest/src/plan.ts:95-200 | a first add raises the live total by its amount and the live count by one; taking over and changing move the total by the difference of the amounts; a removal gives back the amount |
| `IngestPlan.RunFollowsDeliveries` | packages/ingest/src/plan.ts:202-219 | along any run the live total and count are those of the start plus what the deliveries add up to |
| `IngestPlan.ProjectCanonicalState` | packages/ingest/src/plan.ts:221-239 | the projection has one entry for each economic key in use, with the account, amount, status and description of every id that carries it |
| `IngestPlan.StreamFreezes` | packages/ingest/src/plan.ts:95-219 | known ids stay known, the key of an id never changes, and a voided view is frozen for ever |
| `IngestPlan.TwiceInARow` | packages/ingest/src/plan.ts:187-200 | delivering any event twice in a row is delivering it once |
| `IngestPlan.AddRedelivered` | packages/ingest/src/plan.ts:95-109 | an add delivered again at any later point leaves the final state unchanged |
| `IngestPlan.RemovalRedelivered` | packages/ingest/src/plan.ts:167-185 | a removal delivered again later changes nothing if and only if its id has not been added since, or is voided by then; after such a copy any stream ends as without it |
| `IngestPlan.ReplayVoidsTheAdd` | packages/ingest/src/plan.ts:167-185 | from any state, removing an unknown id, adding it and replaying the removal voids what was added |
| `IngestReconcile.ReconcileSyncBatch` | packages/ingest/src/reconcile.ts:55-101 | the phases of the reconciler are one run over other adds, paired adds, modifications and other removals of the deduplicated batch |
| `IngestReconcile.FirstByIdKeepsLeast` | packages/ingest/src/reconcile.ts:14-31 | deduplication keeps, for each event id, exactly the least event |
| `IngestReconcile.OnlyTheSetMatters` | packages/ingest/src/reconcile.ts:14-101 | permuting the batch or repeating any event changes neither the actions nor the state |
| `IngestReconcile.PendingBecomesPosted` | packages/ingest/src/reconcile.ts:71-98 | when the removal of a pending transaction comes with the one add that names it, in either order, its key becomes posted with the new view under all its ids and the new one, and nothing voids it |
| `IngestReconcile.PostedWithinOneBatch` | packages/ingest/src/reconcile.ts:60-98 | when the pending add, its removal and the posted add that names it all come in one batch, in any order, the new key is posted with the new view under both ids, and nothing voids it |
| `IngestReconcile.RunStaysOff` | packages/ingest/src/reconcile.ts:55-101 | events that stay off a key leave its carriers and views untouched and never void it |
| `IngestReconcile.PairedIsLeast` | packages/ingest/src/reconcile.ts:71-85 | a removed id is paired with the least add that names it, if any does |
| `IngestReconcile.FirstRivalKeeps` | packages/ingest/src/plan.ts:110-124 | in any order of events, the first new add to name a pending transaction takes its key over, whatever names it later and whatever known adds are delivered again |
| `IngestReconcile.LineageGoesTo` | packages/ingest/src/reconcile.ts:60-98 | of the adds in a batch that name a removed pending transaction, new or delivered before, the paired one carries the key on if and only if it is new and no other new one names it; otherwise the least of the other new ones does |
| `IngestReconcile.RivalAddTakesTheKey` | packages/ingest/src/reconcile.ts:60-98 | an instance with two adds: the greater one takes the key |
| `IngestReconcile.RemovalHonouredExactly` | packages/ingest/src/reconcile.ts:71-98 | the removed transaction ends voided or superseded if and only if no add of the batch names it, or it is voided already, or it is pending and a new add names it; in every other case the removal is lost and it stays as it was |
| `IngestReconcile.RedeliveredAddLosesRemoval` | packages/ingest/src/reconcile.ts:76-92 | an instance: the add that names a pending transaction was delivered before it, and paired again it costs the removal, so the transaction stays pending beside the posted one |
| `IngestReconcile.RemovalFoldedExactly` | packages/ingest/src/reconcile.ts:71-98 | in any batch a removal is folded if and only if no add of the batch names its id |
| `IngestReconcile.UnnamedRemovalVoids` | packages/ingest/src/reconcile.ts:71-98 | in any batch a known id that is removed, under an event id of its own, and that no add names ends voided |
| `IngestReplay.BatchReplayed` | packages/ingest/src/reconcile.ts:55-101 | reconciling any batch a second time leaves the state as the first time left it, and every action is a no-op unless two events of the batch modify one id |
| `IngestReplay.ModifiedViews` | packages/ingest/src/plan.ts:139-165 | after any run of modifications each id shows the last one its view accepts, and otherwise what it showed before |
| `PlaidSync.FetchSyncPagesLive` | supabase/functions/_shared/plaid-sync.ts:217-346 | against any provider: a window is one unbroken cursor chain from the base cursor with nothing from an aborted attempt, terminal exactly when the last page has no more, partial only at the page limit; every failure is explained by the last thing that happened, exhaustion by the fourth mutation; each request follows its own lease renewal; at most 4 · maxPages requests, and none for a limit outside 1 to 2^53 - 1 |
| `PlaidSync.ChainGrows` | supabase/functions/_shared/plaid-sync.ts:327-328 | appending the answer to the current cursor keeps the chain unbroken |
| `PlaidSync.PageJoins` | supabase/functions/_shared/plaid-sync.ts:315-328 | a page that passes the stall check advances the cursor and extends the attempt |
| `PlaidSync.LogRequest` | supabase/functions/_shared/plaid-sync.ts:222-272 | renewing, reserving and then requesting keeps every request leased and permitted |
| `PlaidSync.WindowCopiesTheFeed` | supabase/functions/_shared/plaid-sync.ts:217-346 | against a provider that serves one feed, however often it forces restarts, the window is the first pages of the feed without gap or repeat, terminal exactly at its end |
| `CivilDate.ClosedFormCountsDays` | packages/detectors/src/civil-date.ts:40-51 | the closed form is the count of days since 1970-01-01 by whole years and months, for every integer year |
| `CivilDate.DayRoundTrip` | packages/detectors/src/civil-date.ts:54-72 | every integer day converts to a valid date and back to itself |
| `CivilDate.CivilRoundTrip` | packages/detectors/src/civil-date.ts:40-72 | every valid date converts to its day and back to itself |
| `CivilDate.YearOfEraFinds` | packages/detectors/src/civil-date.ts:59-62 | the chain of four divisions finds the year of the era that contains the day |
| `CivilDate.OrderPreserved` | packages/detectors/src/civil-date.ts:40-51 | days are ordered exactly as dates are |
| `CivilDate.NextDayIsOneLater` | packages/detectors/src/civil-date.ts:40-51 | the next civil day is always the next epoch day |
| `CivilDate.FourDigitRange` | packages/detectors/src/civil-date.ts:20-34 | four-digit dates are exactly the days −719162 to 2932896 |
| `CivilDate.GuardedRoundTrip` | packages/detectors/src/civil-date.ts:40-72 | the guarded conversions are mutually inverse and fail exactly outside that range |
| `CivilDate.AddDaysMoves` | packages/detectors/src/civil-date.ts:74-77 | adding days moves the day by exactly that many or fails because the year has no four digits |
| `CivilDate.AddDaysFailsExactly` | packages/detectors/src/civil-date.ts:54-77 | each failure of adding days has its exact condition: an integer beyond 2^53 - 1, a date that is none, a day outside four-digit years |
| `CivilDate.DaysInMonthExactly` | packages/detectors/src/civil-date.ts:12-18 | the length of a month is its last valid day, and exists exactly for the months of four-digit years |
| `CivilDate.AddDaysComposes` | packages/detectors/src/civil-date.ts:74-77 | adding days in two steps is adding them at once, and subtracting them comes back |
| `Cadence.CadenceDatesBetween` | packages/detectors/src/cadence.ts:8-39 | for all three anchor kinds the dates are those found by looking at every day of the range for its clamped grid |
| `Cadence.EpochDates` | packages/detectors/src/cadence.ts:16-23 | stepping by the interval from the rounded-up start visits every grid day of the range and no other |
| `Cadence.PushMonth` | packages/detectors/src/cadence.ts:29-36 | pushing the clamped anchor days of a month, in range and not just pushed, adds exactly the grid days of that month |
| `Cadence.GridDatesExact` | packages/detectors/src/cadence.ts:8-39 | the dates are exactly the in-range dates on the grid, strictly increasing and so without repeats |
| `Cadence.GridDatesSplit` | packages/detectors/src/cadence.ts:8-39 | splitting a range at any day concatenates its dates |
| `Timeline.StatusOnDate` | packages/detectors/src/timeline.ts:14-46 | the loop with its early exit gives the status the events in effect by the date make, whatever their order in the list: confirmed if a confirmation stands, with no cancellation after it, and no pause after such a one goes without resumption; paused if one does; cancelled if no confirmation stands; rejected or suggested if none ever was; it fails exactly on an invalid date |
| `Timeline.StatusByHistory` | packages/detectors/src/timeline.ts:4-46 | the fold over the sorted events agrees with that reading of the unsorted list, ties by creation, command and place |
| `Timeline.StatusIsDetermined` | packages/detectors/src/timeline.ts:18-46 | no two statuses fit one history |
| `Timeline.OnlyEventsInEffectMatter` | packages/detectors/src/timeline.ts:4-46 | neither the order of the list nor any event effective later changes the status of a date |
| `Projection.ProjectsConfirmedGridDays` | packages/detectors/src/project.ts:7-42 | the projected days are exactly the grid days after lastSeen, up to the horizon, on which the history makes the series confirmed |
| `Projection.ProjectionSucceedsExactly` | packages/detectors/src/project.ts:7-22 | nothing is projected for a series suggested or rejected; for any other, projection succeeds if and only if the horizon is a safe integer, the range lies within four-digit years, an amount is known and status dates are valid where they are looked up |
| `Projection.ProjectionIsOrdered` | packages/detectors/src/project.ts:24-41 | occurrences come in strictly increasing order, each with the expected amount |
| `Projection.LongerHorizonAppends` | packages/detectors/src/project.ts:7-42 | the projection at a horizon is a prefix of the projection at any longer one |
| `Matching.GreedyIsMatching` | packages/detectors/src/detect.ts:132-140 | taking ranked pairs whose ends are free gives a matching |
| `Matching.GreedyLeavesNoBlockingPair` | packages/detectors/src/detect.ts:132-140 | every candidate clashes with, or is, a chosen pair ranked no later |
| `Matching.GreedyIsHalfOptimal` | packages/detectors/src/detect.ts:132-140 | the greedy matching has at least half the size of any matching of the candidates |
| `RecurringFits.FitSlots` | packages/detectors/src/detect.ts:111-160 | the result summarises the greedy matching of all pairs within tolerance: matched in time order, slot span, residual sum, largest gap; none below three |
| `RecurringFits.MatchSlots` | packages/detectors/src/detect.ts:132-140 | the loop over the two used sets computes the greedy matching |
| `RecurringFits.CandidatesExact` | packages/detectors/src/detect.ts:121-125 | the candidates are exactly the pairs of a transaction and a slot within tolerance |
| `RecurringFits.FitSlotsMatches` | packages/detectors/src/detect.ts:121-140 | the chosen pairs are a matching within tolerance with no blocking pair |
| `RecurringFits.FitSlotsIsHalfOptimal` | packages/detectors/src/detect.ts:121-140 | no other matching within tolerance is more than twice as large |
| `RecurringFits.MatchedWithinSpan` | packages/detectors/src/detect.ts:142-156 | matches never outnumber the slots they span |
| `RecurringFits.GapsWithin` | packages/detectors/src/detect.ts:148-153 | no two neighbouring matched slots are further apart than the reported gap |
| `RecurringFits.MakeFit` | packages/detectors/src/detect.ts:42-50 | a fit exists if and only if three or more transactions are matched, in three fifths of the slots they span, with no two slots in a row left out; the matched pairs lie within tolerance, one to one, and none closer was passed over; span, days off, one amount, key and score (coverage, count, one amount, days off) are told from them |
| `DisjointFits.UniqueFitsKeepBest` | packages/detectors/src/detect.ts:336-350 | one fit a key survives, none proposed under its key goes before it by score, matches, days off, cadence and key, and every survivor was proposed |
| `DisjointFits.UniqueFitsKeepFirst` | packages/detectors/src/detect.ts:346-350 | among fits of one key that tie, the first proposed stays |
| `DisjointFits.ChooseDisjointFits` | packages/detectors/src/detect.ts:335-411 | the chosen fits share no transaction, come best first by score, matches, days off, cadence and key, and none is explained by a larger semimonthly fit; a fit neither chosen nor explained shares a transaction with a chosen one that goes before it |
| `DisjointFits.BestScoreIsChosen` | packages/detectors/src/detect.ts:328-410 | the first chosen fit has the best score among the fits that no other explains |
| `DisjointFits.ChosenFitsAreDisjoint` | packages/detectors/src/detect.ts:384-410 | no transaction is claimed twice and every chosen fit is undominated |
| `DisjointFits.LeftOutFitsLose` | packages/detectors/src/detect.ts:402-410 | an undominated fit left out shares a transaction with a chosen fit that sorts no later |
| `DisjointFits.ChosenFitsHaveQuality` | packages/detectors/src/detect.ts:42-50 | every chosen fit is what one of the proposals makes, passes the quality gate on it, and leaves no slot gap over two on that grid |
| `DisjointFits.SomethingIsChosen` | packages/detectors/src/detect.ts:335-411 | some fit is chosen if and only if some proposal passes the gate |
| `RecurringGrids.EpochFits` | packages/detectors/src/detect.ts:203-221 | the weekly and biweekly proposals are exactly one for each residue seen, none twice, laid on the anchor grid |
| `RecurringGrids.CalendarFits` | packages/detectors/src/detect.ts:223-251 | the monthly, quarterly and annual proposals are exactly one for each day and phase seen, none twice, or an error exactly when a padded month leaves the four-digit years |
| `RecurringGrids.SemimonthlyFits` | packages/detectors/src/detect.ts:264-299 | the semimonthly proposals are exactly one for each pair of candidate days nine to twenty apart, none twice, or an error exactly when there is a pair and a padded month leaves the four-digit years |
| `RecurringGrids.EpochSlots` | packages/detectors/src/detect.ts:208-217 | the stepping loop lists exactly the dates of the emitted anchor grid in the padded span |
| `RecurringGrids.CalendarSlots` | packages/detectors/src/detect.ts:233-247 | the month loop lists exactly the clamped dates of the emitted anchor grid in the padded months |
| `RecurringGrids.SemimonthlySlots` | packages/detectors/src/detect.ts:284-295 | the two-day loop, sorted, lists exactly the dates of the emitted pair grid in the padded months |
| `RecurringGrids.DayPairs` | packages/detectors/src/detect.ts:272-283 | the pairs are exactly those of candidate days nine to twenty apart, earlier day first, none twice |
| `RecurringGrids.ProposalsFor` | packages/detectors/src/detect.ts:337-345 | all six grids are proposed, or an error exactly when a transaction falls in the years 1 or 9999 |
| `RecurringGrids.SlotsAreTheAnchorGrid` | packages/detectors/src/detect.ts:203-299 | the slots matched against are the grid the emitted anchor stands for: each slot is on it, and each of its dates within tolerance of a transaction is a slot |
| `RecurringDetection.SubsetsFor` | packages/detectors/src/detect.ts:301-317 | the subsets are the amounts seen three times or more and the whole group, without repeats |
| `RecurringDetection.SubsetsCoverTheGroup` | packages/detectors/src/detect.ts:301-317 | every subset draws on the group, and the group itself is always one of them |
| `RecurringDetection.ChosenFitsFollowTheirGrid` | packages/detectors/src/detect.ts:335-411 | every transaction a chosen fit claims lies within tolerance of a date of the anchor it will be projected on |
| `RecurringDetection.DetectInGroup` | packages/detectors/src/detect.ts:335-411 | fits of a group are disjoint, best first, of quality, on their grid and without a slot gap over two there, and what is left out loses to a chosen one or is explained; some are found if and only if a proposal passes the gate; detection fails exactly when a transaction falls in the years 1 or 9999 |
| `SemimonthlyDrift.BacktestReachesExactly` | packages/detectors/src/backtest.ts:83-85 | whatever the detector takes for a date of a grid the backtest does too, on every grid, if and only if the cadence is not semimonthly |
| `SemimonthlyDrift.SemimonthlyEvidenceBeyondReach` | packages/detectors/src/backtest.ts:83-90 | the detector makes a semimonthly fit that claims a deposit three days early, which the backtest can match to no date of that grid |
| `SemimonthlyDrift.DateTextSeparates` | packages/detectors/src/detect.ts:284-293 | a date is told from the text that names its slot |
| `Backtest.RunBacktest` | packages/detectors/src/backtest.ts:64-137 | matched pairs are of the series, of the fixed amount or within the bounds, and at most 2, 3, 5 or 7 days apart by cadence; nothing skipped could be paid by anything unexpected; each confirmed grid date of the range is matched or skipped once, each transaction matched or unexpected once, in order of date; a pair passed over lost an end to one no worse by days, amount, date and id; it fails exactly on unreadable dates |
| `Backtest.PairsExact` | packages/detectors/src/backtest.ts:87-99 | the candidates are exactly the pairs within date tolerance, of the same series and with an allowed amount |
| `Backtest.ChosenPairsAreGreedy` | packages/detectors/src/backtest.ts:87-122 | the pairs are one to one, none blocks, and no matching is more than twice as large |
| `Backtest.ReportPartitions` | packages/detectors/src/backtest.ts:108-136 | matched and skipped partition the expectations, matched and unexpected the transactions |
| `Allocation.AllocateMoney` | packages/ledger/src/money.ts:63-99 | allocation succeeds exactly for non-negative weights of positive sum and gives the signed largest-remainder shares |
| `Allocation.DistributeUnits` | packages/ledger/src/money.ts:75-96 | handing the spare units down the ranking gives the shares defined by counting predecessors, and they sum to the magnitude |
| `Allocation.RankIsPosition` | packages/ledger/src/money.ts:85-88 | the k-th ranked part is preceded by exactly k others |
| `Allocation.SpareUnitsBound` | packages/ledger/src/money.ts:84-96 | there are never more spare units than parts with a remainder, so no other part gets one |
| `Allocation.SharesSumToTotal` | packages/ledger/src/money.ts:63-99 | the shares sum to exactly the total |
| `Allocation.ShareIsFloorOrCeiling` | packages/ledger/src/money.ts:73-98 | each share is the floor or the ceiling of its exact share, with the sign of the total |
| `Allocation.ZeroWeightGetsNothing` | packages/ledger/src/money.ts:63-99 | a part of no weight gets nothing |
| `Allocation.LargerWeightNeverLess` | packages/ledger/src/money.ts:63-99 | a larger weight never gets less |
| `Allocation.NegationNegates` | packages/ledger/src/money.ts:73-98 | negating the total negates every share |
| `Allocation.AllocationIsClosest` | packages/ledger/src/money.ts:63-99 | no integer vector with the same sum has a smaller sum of squared deviations from the exact shares |
| `Allocation.SumMoney` | packages/ledger/src/money.ts:41-55 | the sum exists exactly when every currency is the requested one, and the first other currency is named |
| `Splits.SplitByAmounts` | packages/ledger/src/split.ts:5-15 | every division of the parent into parts of its currency is accepted and returned; what is returned sums to the parent, in its currency; a refusal names a delta that one more part would mend |
| `Splits.SplitByBasisPoints` | packages/ledger/src/split.ts:17-24 | basis points are accepted exactly when non-negative and summing to 10000, and split by allocation into parts that sum to the parent |
| `Splits.ComputeSplitLegs` | supabase/functions/mcp/summarize.ts:188-250 | each refusal has its exact condition, in order; otherwise every part has one leg of the opposite sign to the account or category it names: the amount as given, the basis-point allocation, or an even share with the spare units first |
| `Splits.PercentShares` | supabase/functions/mcp/summarize.ts:221-230 | the second largest-remainder loop computes the same shares as the allocation of the ledger |
| `Splits.EqualShares` | supabase/functions/mcp/summarize.ts:231-240 | giving the first parts the remainder is allocation with unit weights |
| `Splits.LegsBalanceTheCash` | supabase/functions/mcp/summarize.ts:176-187 | successful legs are one for each part and post to the one thing it names, none zero, and sum to minus the amount |
| `Splits.PercentLegsAreBasisPointSplit` | supabase/functions/mcp/summarize.ts:213-230 | percent legs are the basis-point split of the opposite amount |
| `Splits.EqualLegsAreUnitAllocation` | supabase/functions/mcp/summarize.ts:231-240 | equal legs are the unit-weight allocation of the opposite amount |
| `Splits.EqualFailsOnlyWhenTooFewUnits` | supabase/functions/mcp/summarize.ts:231-242 | an even split fails exactly when there are more parts than minor units |
| `Splits.SplitIsPostable` | supabase/functions/mcp/summarize.ts:176-187 | the cash posting with the legs is a batch the journal accepts |
| `Journal.BuildBatch` | packages/ledger/src/journal.ts:33-71 | the loop over a balance for each currency decides exactly whether a batch has two or more postings, none zero, balanced in every currency |
| `Journal.BuiltExactlyWhenPostable` | packages/ledger/src/journal.ts:33-71 | a batch is built, unchanged, exactly when it is postable, and an imbalance is reported with its true delta |
| `Journal.CurrencyBalances` | packages/ledger/src/journal.ts:38-48 | the map holds the exact balance of each currency that occurs, in order of appearance |
| `Journal.ReversalCancels` | packages/ledger/src/reversal.ts:12-29 | a reversal exists exactly for a postable batch, names it, and cancels it in every ledger account and currency |
| `Journal.ReversalOfReversal` | packages/ledger/src/reversal.ts:12-29 | reversing a reversal posts the original amounts again |
| `Journal.RevisionNetsToReplacement` | packages/ledger/src/reversal.ts:40-51 | a revision of a built batch fails only for an unpostable replacement; in every ledger account and currency original, reversal and replacement together are the replacement |
| `TrialBalance.ReconstructTrialBalance` | packages/exports/src/reconstruct.ts:4-29 | the rebuilt balance exists exactly for valid postings, has one sorted row for each account and currency posted to, and each balance is exact |
| `TrialBalance.TrialBalanceLosesNothing` | packages/exports/src/reconstruct.ts:4-29 | the rows add up, in each currency, to everything posted in it |
| `TrialBalance.SameBalancesSameRows` | packages/exports/src/reconstruct.ts:4-29 | postings with the same account balances rebuild the same rows, rows of zero aside |
| `LiveLedger.LiveIsStandingLinked` | packages/exports/src/live-ledger.ts:4-16 | the live view is exactly the batches in force that belong to a transaction |
| `LiveLedger.FilterLiveExact` | packages/exports/src/live-ledger.ts:11-15 | a batch passes the filter exactly when it meets the four conditions |
| `LiveLedger.RunKeepsBooks` | packages/ledger/src/reversal.ts:12-51 | over every history: books registered, balanced, reconciled with the batches in force, at most one of them for each transaction and none for a voided one |
| `LiveLedger.CompensateStanding` | packages/exports/src/live-ledger.ts:8-15 | a reversal booked with its revision row takes exactly its original out of force |
| `LiveLedger.HistoryBalancesToLive` | packages/exports/src/live-ledger.ts:4-16 | after any history every account balances to its live batches plus the opening balances in force |
| `LiveLedger.TrialBalanceIsLive` | packages/exports/src/reconstruct.ts:4-29 | the trial balance of all postings has the rows of the one over live batches, rows of zero aside, if and only if opening balances net to nothing |
| `LiveLedger.LinkedHistoryHasNoOpenings` | packages/exports/src/live-ledger.ts:11-15 | histories whose batches all belong to transactions have no opening balances |
| `LiveLedger.OpeningIsNotLive` | packages/exports/src/live-ledger.ts:11-15 | one opening balance on top of any such history takes the full and the live trial balance apart |
| `LiveLedger.FirstOpening` | packages/exports/src/live-ledger.ts:11-15 | an instance: a first opening balance of one unit |
| `LiveLedger.TrialBalanceSumsToZero` | packages/exports/src/reconstruct.ts:4-29 | both trial balances sum to zero in every currency after any history |
| `LiveLedger.StandingCanBeReversed` | packages/ledger/src/reversal.ts:12-29 | a batch in force can always be reversed: it alone leaves force, its revision row is recorded, and its transaction is voided and has no live batch |
| `LiveLedger.StandingCanBeRevised` | packages/ledger/src/reversal.ts:40-51 | a batch in force can always be revised with a postable replacement, which alone takes its place; its revision row names all three batches, and its transaction is marked pending or posted |
| `LiveLedger.RecordedAsGiven` | packages/ledger/src/journal.ts:33-71 | recording succeeds if and only if the batch is postable, its id new and its transaction without a batch in force; it adds the batch as given and marks the transaction |
| `MoneyText.NormalizeIsValueText` | packages/exports/src/currency.ts:32-37 | normalising gives the one text of the value |
| `MoneyText.NormalizeSeparatesValues` | packages/exports/src/currency.ts:32-37 | texts normalise alike exactly when they mean the same amount |
| `MoneyText.ShiftIsDivision` | packages/exports/src/currency.ts:48-49 | cutting the padded digits is division by the power of ten, with the remainder padded |
| `MoneyText.PrintersAgree` | supabase/functions/mcp/lib.ts:23-33 | the digit-shifting printer and the dividing printer agree on every integer text and exponent |
| `MoneyText.PromptPrinterAgreesExactly` | packages/ai/src/money-format.ts:28-41 | the prompt printer agrees too, currency suffix aside, if and only if the input is not a negative zero at exponent 0 |
| `MoneyText.PrintedParsesBack` | packages/exports/src/currency.ts:40-66 | parsing a printed amount returns the normalised integer |
| `MoneyText.ParsedPrintsCanonical` | packages/exports/src/currency.ts:40-66 | a decimal parses exactly when it has the shape of its exponent, and printing the parsed amount gives its canonical form |
| `MoneyText.ParseOfPrinted` | supabase/functions/mcp/lib.ts:23-33 | parsing what the dividing printer prints gives the amount back |
| `MoneyText.PrintingIsInjective` | supabase/functions/mcp/lib.ts:23-33 | no two amounts print alike |

## Left out

- PaycheckReconciliation.ReconcilePaycheck: which range error an ill-formed input raises, and object prototype names
  as transaction ids, are not modelled.
- PaycheckApply.ApplyPaycheckTemplate: the parallel `lines` listing and the wording of rejections are not modelled.
- IngestPlan.ProjectCanonicalState: returns the entries as a map, because the list is sorted by collation only.
- IngestReconcile.LineageGoesTo: stated where the adds that name the removed id have event ids of their own, the new
  ones among them also ids of their own, and the rest of the batch removes that id, adds known ids again or is about
  other transactions. `IngestReconcile.RemovalHonouredExactly` is stated there too.
- IngestReconcile.FirstRivalKeeps: the order modifies and removes no id of the key, and the id of the first rival is its
  own; `IngestReconcile.LineageGoesTo` covers the removal.
- DisjointFits.ChooseDisjointFits: the fit key is a record of cadence, anchor and ids instead of their joined text.
- RecurringDetection.DetectInGroup: one group; parsing, suppression rules, grouping by counterparty and the emitted
  summaries are not modelled.
- PlaidSync.FetchSyncPagesLive: credentials, metering, environment gates and body parsing are not modelled; a body
  counts by its cursor and its flag.
- LiveLedger.TrialBalanceIsLive: rows of zero are set aside, because an account whose postings were all reversed
  keeps a row of zero in the full balance.
- MoneyText.PrintersAgree: for one exponent; the three tables of exponents are not modelled, and they differ on some
  currencies (CLP has no minor unit in the export table, two digits in the prompt table).
- MoneyText.ParseOfPrinted: the amount is an integer already; what else `BigInt` accepts as text is not modelled.
- Wire parsing and date text: the patterns for amounts and dates outside `MoneyText`.
- Budgets, statements, reimbursements and the totals of `summarize`: not modelled.
- Receipt matching, statement sniffing, export texts and the manifest: floating point and text assembly.
- HTTP routes, stored procedures, encryption, authorization and the AI providers: plumbing around code outside the
  repository.
