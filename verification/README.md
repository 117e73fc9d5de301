# Verified model of the coffee-farm payroll

A Dafny 4.11 model of the parts of the product that decide who is owed what, and that keep the
phone, the browser and the server agreeing. `dafny verify dfyconfig.toml` checks all of it.

What runs step by step in the source is a class or a method with a loop here, held to a function
or a relation on values; the theorems are about those, over every input, every run or every
reachable state.

| file | what it models |
|---|---|
| `Text.dfy` | digits, padding, text order and blanks, shared by the printers and readers |
| `Amount.dfy` | quantity times rate in exact decimals, rounded once; the in-memory server's own multiplication |
| `Uuid.dfy` | the monotonic id generator and its readers (sections 5.7 and 6.2 of RFC 9562) |
| `Calendar.dfy` | days, weeks, ISO week numbers, and how days print and sort |
| `DateFields.dfy` | typed dates and the month grid |
| `Spelling.dfy` | exactly which texts the readers accept, and as what |
| `PesoText.dfy`, `Csv.dfy` | peso and quantity text with their boxes; the CSV printer with a reader for it |
| `Geometry.dfy` | when a hand-drawn boundary crosses itself |
| `PriceRules.dfy`, `PriceWrites.dfy` | the kilo price: person, lote, week, farm; and the routes that change one |
| `DevicePrices.dfy` | the copy of the prices on a device |
| `Ledger.dfy` | the append-only ledger, its totals, its reversals |
| `Settlement.dfy`, `SettlementRuns.dfy`, `Payroll.dfy`, `FarmServer.dfy` | the settlement machine: the steps on values, the invariant, the theorems over runs, and the farm as a mutable object |
| `Answers.dfy` | which answer each route of the farm gives, and what it writes |
| `Estimates.dfy` | the figure a list shows for a record, against what it is pending at and settled for |
| `PaymentProtocol.dfy`, `PaymentAttempts.dfy`, `WriteOnce.dfy` | paying in two requests over a network that loses and repeats; what one attempt comes to; the ids each attempt carries |
| `GrossChange.dfy` | why an approved figure moved, and when the reasons are true |
| `UploadQueue.dfy`, `UploadProtocol.dfy`, `UploadSafety.dfy`, `UploadFiling.dfy`, `UploadReaches.dfy` | weighings uploaded from a device: one tab exactly, many tabs as a state machine, what its runs keep, the farm each weighing is filed under, and that an upload gets through |
| `SessionRefresh.dfy`, `SessionEnds.dfy` | one refresh of the session shared by many requests; when a request goes out again and when a session ends |

## What is an input

Ids are integers in text order, except in `Uuid.dfy`, where they are strings. Business days are
day numbers; `Calendar.IsoOrder` is why that is the same as sorting their text. Money is whole
cents and unbounded. Coordinates and printed quantities are reals. The clock, the ids a server
mints, the answers of the network and the choice of which tab runs next are parameters or events.
An id minted by a server is one never used before; an id sent by a client is arbitrary. Code
between two awaits is one step.

## What turned out not to hold as stated

Each of these is a lemma, with the exact condition under which the code does what it says.

- A Monday in the year 99 is read back as 1999, so taking the Monday twice differs for the first
  three days of the year 100 (`Calendar.MondayIdempotent`).
- Ids carry 48 bits of milliseconds: past them the instant read back is another one (`Uuid.ReadBack`)
  and the text order is that of the bits left (`Uuid.OrderExactly`; an input in
  `Uuid.OrderLostPastLimit`).
- Turning the ring of a boundary can change the verdict when a corner is written twice in a row
  (`Geometry.RotationExact`).
- The in-memory server rounds a negative rate differently from the shared code
  (`Amount.ServerAgrees`).
- The two server readers of a week's price differ on a negative farm price
  (`PriceRules.WeekReadersAgree`).
- The device can show the current price for a week older than the price history
  (`DevicePrices.WeekSurvives`); not once the base price has been read on a server that seeds its
  history (`PriceWrites.EverySyncAgrees`).
- Undoing a deduction or an adjustment restores the balance but not the figures it is made of
  (`Ledger.ReversalRestores`).
- Reversing an earning by itself strands its work: claimed, and owed no more (`Payroll.OwedExact`,
  `Payroll.ReversedEarningStrands`).
- The estimate stored with a record does not follow a corrected quantity at a frozen rate
  (`Estimates.ReadersAgree`), nor, once the record is settled, the price it was settled at
  (`Estimates.SettledEstimate`; an input in `Estimates.RepricedBeforeSettling`).
- A payment retried after its settlement was voided goes out against other money owed
  (`PaymentProtocol.RetryAfterVoid`, `PaymentProtocol.SettleVoidRetry`; a run of it in
  `PaymentProtocol.VoidedRetryPays`), and a retry that finds the payment written shows the same
  balance before and after it (`PaymentProtocol.ReceiptAddsUp`).
- The name under which ids are kept leaves the approved gross out, so approving the same cents out
  of the same work at another gross reuses the first approval's ids (`WriteOnce.NeverBreaksExactly`,
  `WriteOnce.StaleGrossReplayed`).
- With the work named, newcomers are no part of a moved figure (`GrossChange.NewcomersDoNotCount`).
- A special price is reported as a repriced week, or hides one that was (`GrossChange.RepricedTruthful`
  has the condition, `GrossChange.SpecialPriceMisreported` an input).
- A moved figure may have no cause to show, a corrected quantity for one
  (`GrossChange.CauseShownExactly`, `GrossChange.UnexplainedExactly`; an input in
  `GrossChange.QuantityEditUnexplained`).
- A farm switched in the middle of an upload files weighings under the wrong farm, by a sending or by
  the replay of one answered 401 (`UploadFiling.FiledRunExactly`; inputs in
  `UploadFiling.SwitchMisfiles` and `UploadFiling.ReplayMisfiles`).
- A weighing removed, or uploaded by another tab, comes back to the device when a tab that was
  refused it writes its snapshot back (`UploadSafety.ReturnsExactly`; a run of it in
  `UploadFiling.RemovedComesBack`).
- A refresh left running signs a tab in again after it signed out (`SessionRefresh.SignedOutExactly`).
- A refresh answer lost while its token is still held lets that token be presented again
  (`SessionRefresh.UnspentExactly`, `SessionEnds.LostAnswerRepeats`).
- A CSV row of no cells reads as a row of one empty cell (`Csv.CsvIsExact`), and a text with the
  guarding apostrophe typed in is not told from one without it (`Csv.NeutralizedClash`).

## Where the code and its words differ

The model follows the code. `apps/web/src/lib/geo.ts:249` says end points are excluded from a
crossing; a touch at an end point counts. `apps/web/src/api/endpoints.ts:1353-1355` says the preview
honours the named work; the in-memory preview at `apps/web/src/mocks/handlers.ts:3198-3213` does not
read it. A replayed settlement of another worker is answered as a replay by
`apps/web/src/mocks/handlers.ts:3231-3233` and refused by `services/api/internal/store/money.go:449-457`;
the model is the first. That file also refuses a gross of nothing before it compares the approved
figure.

## Model

| member | source | states |
|---|---|---|
| FarmServer.Farm.RegisterWork | apps/web/src/mocks/handlers.ts:2666-2749 | registering work in place is exactly the registering step: a resent id answers the record there is, an unknown activity, what a weigher may not record, an empty quantity, a missing rate or a priced-by-date range is refused with nothing written; the farm stays sound |
| FarmServer.Farm.CorrectWork | apps/web/src/mocks/handlers.ts:2766-2808 | correcting is exactly the correcting step, refused while a live settlement claims the record; the farm stays sound |
| FarmServer.Farm.RemoveWork | apps/web/src/mocks/handlers.ts:2814-2828 | removing is exactly the removing step, refused while a live settlement claims the record; the farm stays sound |
| FarmServer.Farm.PutWeekPrice | apps/web/src/mocks/handlers.ts:2844-2856 | a Monday and a positive price change that week's row where it is, or add one; anything else is refused; nothing but the book moves and the farm stays sound |
| FarmServer.Farm.PutBasePrice | apps/web/src/mocks/handlers.ts:2895-2917 | the base history is seeded if it was never read, its dated row changed or added, the farm's own price follows the row in force this week, and the price counts as confirmed from then on |
| FarmServer.Farm.PutSpecialPrice | apps/web/src/mocks/handlers.ts:2952-2974 | one dated row of one person or lote is changed or added, no price ending it; an unknown target is refused with nothing written |
| FarmServer.Farm.DropSpecialPrice | apps/web/src/mocks/handlers.ts:2976-2991 | the dated row of that target goes, and it is answered as done exactly when there was one |
| FarmServer.Farm.SettleWork | apps/web/src/mocks/handlers.ts:3222-3325 | settling is exactly the settling step: the id is asked first, a refusal (period, nothing chosen, no or stale approved figure, nothing to pay) writes nothing, otherwise one settlement and one earning; the farm stays sound |
| FarmServer.Farm.EarliestWeek | apps/web/src/mocks/handlers.ts:3286-3291 | the loop finds the start of the period: the earliest week taken in, or the day asked for |
| FarmServer.Farm.VoidSettlement | apps/web/src/mocks/handlers.ts:3386-3420 | voiding is exactly the voiding step: every line flagged, the unreversed earning reversed, refused the second time; the farm stays sound |
| FarmServer.Farm.AddMovement | apps/web/src/mocks/handlers.ts:4629-4703 | a payment, advance, deduction or adjustment is exactly the paying step: a resent id is answered before the balance is looked at; the farm stays sound |
| FarmServer.Farm.ReverseMovement | apps/web/src/mocks/handlers.ts:3479-3506 | a reversal is exactly the reversing step, refused for a reversal and for what was reversed already; the farm stays sound |
| FarmServer.Farm.constructor | apps/web/src/mocks/db.ts:432-480 | a new farm is empty and sound |
| Settlement.LiveClaim | apps/web/src/mocks/db.ts:548-562 | the two loops find a claim exactly when the payable is settled, and it is the first live line in settlement and line order |
| Settlement.WorthIsNearest | apps/web/src/mocks/db.ts:88-111 | the server's amount is the shared one, the integer nearest the exact product, for every quantity and price that is not negative |
| Settlement.WorthExactly | apps/web/src/mocks/db.ts:88-111 | the server's amount for every price: the nearest integer, except that a negative product loses its fraction |
| SettlementRuns.NewSettlementKept | apps/web/src/mocks/handlers.ts:3240-3325 | what a settlement is about to write claims only open, undeleted work of that worker, each once, and adds up to the approved gross, which is positive |
| SettlementRuns.OpenIsInOrder | apps/web/src/mocks/db.ts:693-703 | pending work is listed by day and then by id, strictly |
| SettlementRuns.VoidLedger | apps/web/src/mocks/handlers.ts:3400-3418 | voiding appends the reversal of that settlement's one earning, or nothing when it was reversed already, and leaves every earning of it reversed |
| Payroll.RunSound | apps/web/src/mocks/db.ts:548-562 | in every run of register, correct, remove, reprice, settle, void, pay and reverse: at most one live claim per payable, claims only on work still there and unchanged, one earning per settlement for its gross, each row reversed at most once |
| Payroll.RunFrozen | apps/web/src/api/endpoints.ts:1561-1581 | in every run, no settlement's gross, period or line moves again and no ledger row is changed or removed; only void flags go up |
| Payroll.Partition | apps/web/src/mocks/db.ts:685-700 | a worker's undeleted work in a range is split exactly: pending, or claimed by exactly one live line of one of that worker's settlements |
| Payroll.PendingInOrder | apps/web/src/mocks/db.ts:702-702 | the pending list is strictly ordered by day and id |
| Payroll.SettleTakesExactly | apps/web/src/mocks/handlers.ts:3234-3310 | a settlement takes exactly the named pending lines (all when none is named), in order and at their pending prices, for the approved gross, from the earliest week to the asked end; every pending list loses exactly those |
| Payroll.SettleConserves | apps/web/src/mocks/handlers.ts:3253-3323 | settling moves money from pending to owed: their sum for the worker is unchanged |
| Payroll.VoidReleasesExactly | apps/web/src/mocks/handlers.ts:3394-3418 | voiding makes pending again exactly the work that settlement claimed, takes its gross off the balance unless its earning was reversed before, and touches no other worker |
| Payroll.SettleThenVoid | apps/web/src/api/endpoints.ts:1561-1581 | settling and voiding at once leaves every pending list and every balance figure as they were |
| Payroll.VoidOnce | apps/web/src/mocks/handlers.ts:3391-3399 | a void flags every line and is refused the second time |
| Payroll.SettlesExactly | apps/web/src/mocks/handlers.ts:3222-3325 | each answer of a settlement by what is known before it: a replay exactly for an id on record, done exactly when something asked for is pending and the approved figure is its positive gross, and each refusal exactly when; only a settled one writes |
| Payroll.GrossChangedReports | apps/web/src/mocks/handlers.ts:3253-3283 | a refusal for a changed figure carries both figures, exactly the pending work nobody named and exactly the named work that is not pending |
| Answers.SettleWritesExactly | apps/web/src/mocks/handlers.ts:3286-3323 | a settlement writes itself under the sent id and one earning of its gross, on the day, tied to it |
| Answers.VoidsExactly | apps/web/src/mocks/handlers.ts:3386-3394 | a void answers not found exactly when no settlement has the id, already void exactly when that one is, and is done otherwise, wherever it stands; a refusal writes nothing |
| Answers.VoidWritesExactly | apps/web/src/mocks/handlers.ts:3395-3418 | a void flags that settlement and its lines in their place and takes back, row by row, each of its earnings that nothing reversed |
| Answers.PaysExactly | apps/web/src/mocks/handlers.ts:4629-4690 | each answer of a payment, advance, deduction or adjustment by what is known before: bad request, replay, key reused, unknown worker, more than is owed, done |
| Answers.PayWritesExactly | apps/web/src/mocks/handlers.ts:1105-1106 | an accepted movement is one row, an adjustment's amount as it was sent and any other taken off, and the balance moves by it |
| Answers.ReversesExactly | apps/web/src/mocks/handlers.ts:3479-3506 | a reversal is refused exactly for no such row, for a reversal, and for a row that has one; otherwise it appends the exact opposite, tied to the row and its settlement |
| Answers.RegistersExactly | apps/web/src/mocks/handlers.ts:2666-2725 | each answer of a new record by what is known before: replay, unknown activity, a weigher's bounds, no rate in force, a range without a rate, bad request, done |
| Answers.RegisterWritesExactly | apps/web/src/mocks/handlers.ts:2717-2749 | the record that is written, field by field, at the head of the list |
| Answers.CorrectsExactly | apps/web/src/mocks/handlers.ts:2766-2800 | each answer of a correction: a quantity of nothing, no such record, a live claim, a record deleted and left so, done |
| Answers.RemovesExactly | apps/web/src/mocks/handlers.ts:2814-2828 | each answer of a removal, and that it marks that record in its place and moves no other |
| Answers.LineExactly | apps/web/src/mocks/db.ts:685-712 | weekly work is pending at the price now, with where it came from; any other work as it was frozen |
| Answers.StepsAllowed | apps/web/src/mocks/handlers.ts:2666-2749 | a run may take any request, with only the ids a server mints new |
| Payroll.FromNewFarm | apps/web/src/mocks/db.ts:548-562 | from a farm with people and prices only, whatever is done: no payable claimed twice, every gross the sum of its lines with its earning, live lines on work still there, and each balance the standing work plus live cash |
| Estimates.RunKeepsOrigin | apps/web/src/mocks/handlers.ts:2753-2808 | in every run a registered record keeps its estimate, source, frozen rate, week, worker and lotes; only quantity, amount and the deleted mark move |
| Estimates.ReadersAgree | apps/web/src/mocks/db.ts:564-595 | whatever happened since its registration, the list of labores and the pending list show one figure for a record exactly when it is weekly or the registered and the present quantity come to the same at its frozen rate |
| Estimates.CorrectedEstimateLags | apps/web/src/mocks/db.ts:584-587 | after any run a corrected quantity moves the pending line, and the list still shows the registered quantity at the frozen rate |
| Estimates.SettledEstimate | apps/web/src/mocks/db.ts:564-595 | a settled record shows what it was registered at; that is what it was settled for exactly when quantity and price then come to the same as quantity and price at the settlement |
| Estimates.RepricedBeforeSettling | apps/web/src/mocks/db.ts:564-595 | an input where it is not: a kilo weighed at a price of one and settled at two still shows one |
| Payroll.BalanceIsWorkAndCash | apps/web/src/mocks/db.ts:501-521 | in every sound state the balance is the gross of settlements whose earning stands plus the live cash movements and corrections |
| Payroll.OwedExact | apps/web/src/mocks/handlers.ts:3479-3506 | the balance is the gross of the open settlements plus live cash exactly when no open settlement's earning was reversed by itself |
| Payroll.ReversedEarningStrands | apps/web/src/mocks/handlers.ts:3479-3506 | reversing the earning of an open settlement leaves its work claimed, not pending, and not owed |
| Payroll.RegisterAddsOneLine | apps/web/src/mocks/handlers.ts:2666-2749 | registering adds one line to the worker's pending work, in the Monday week of its day, at the named, weekly or dated rate, a contract counting as one, and changes no other line |
| Payroll.RateInForceIsLatest | apps/web/src/mocks/db.ts:730-735 | the rate in force is the latest one not after the day, or none when all are later |
| Payroll.RemoveTakesOneLine | apps/web/src/mocks/handlers.ts:2814-2828 | removing a record takes its line and no other out of the pending work |
| Payroll.CorrectKeepsPrice | apps/web/src/mocks/handlers.ts:2753-2808 | a correction changes the quantity and the amount that follows from it, never what decides the price, and only while nothing claims the record |
| Payroll.PayMovesBalance | apps/web/src/mocks/handlers.ts:4622-4703 | a movement lands on its own worker's balance with the sign of its kind and its full magnitude, and a payment leaves no negative balance unless overpayment was allowed |
| Payroll.ReverseOnce | apps/web/src/mocks/handlers.ts:3474-3506 | a reversal takes the amount back once: reversing again, or reversing the reversal, is refused |
| Ledger.SignedAmountIsValid | packages/shared/src/money.ts:133-178 | the data layer's sign is always a valid one, unless the magnitude rounds to zero |
| Ledger.SignedAmountExactly | packages/shared/src/money.ts:133-178 | the sign table kind by kind |
| Ledger.PostsExactly | apps/web/src/mocks/db.ts:501-521 | where a row of each kind lands in the four figures |
| Ledger.BalanceAddsUp | apps/web/src/mocks/db.ts:501-521 | for every ledger, balance is earned less paid less deducted plus the adjustments |
| Ledger.ReversalRestores | apps/web/src/mocks/db.ts:501-521 | a reversal restores the balance whatever was written since; it restores earned, paid and deducted too exactly for an earning, a payment or an advance |
| Ledger.BalanceIsLive | apps/web/src/mocks/db.ts:495-520 | with each row reversed at most once and by its exact opposite, the balance is the sum of the live rows |
| Ledger.DebtsAreInBalance | apps/web/src/mocks/db.ts:523-545 | the debts listed are already inside the balance |
| Ledger.DebtsExactly | apps/web/src/mocks/db.ts:523-545 | listed are the worker's deductions and advances that nothing reverses, and no other row |
| PaymentProtocol.OneApprovalOnePayment | apps/web/src/api/endpoints.ts:1369-1436 | over any interleaving of retried, late, repeated and lost requests with everything else: at most one settlement and one payment per approval, the settlement for exactly the approved gross out of the approved work, no payment before it exists |
| PaymentProtocol.CreatePayment | apps/web/src/api/endpoints.ts:1598-1640 | one attempt settles, reads the balance, pays and reads it again; where it stops, what it leaves written and what the caller is told are exactly that, whichever answers are lost |
| PaymentProtocol.ReceiptAddsUp | apps/web/src/api/endpoints.ts:1615-1637 | the two balances of a receipt differ by the money handed over exactly when no row stood under the payment's id before; a retry that finds one shows one balance twice |
| PaymentAttempts.AttemptsExactly | apps/web/src/api/endpoints.ts:1598-1640 | an attempt pays exactly when the work is settled or can be, the worker is the farm's, the amount is something, its id is new and no more than what is then owed; replays exactly when a payment to that worker has the id |
| PaymentAttempts.AttemptWrites | apps/web/src/api/endpoints.ts:1615-1623 | a paid attempt writes one payment of that amount beside the settlement, and the balance is lower by it |
| PaymentAttempts.OutcomeExactly | apps/web/src/api/endpoints.ts:1598-1640 | a receipt comes back exactly when every answer was heard and the payment stands, with what was owed once settled and what is owed after |
| PaymentAttempts.ProtocolReaches | apps/web/src/api/endpoints.ts:1598-1640 | four events carry any approval of settleable work through, to the farm one attempt leaves |
| PaymentAttempts.RequestsRepeat | apps/web/src/lib/writeOnce.ts:34-38 | what left a device may arrive any number of times, heard or not, among anything else |
| PaymentProtocol.RetryWritesNothing | apps/web/src/lib/writeOnce.ts:19-28 | once both rows exist, another attempt writes nothing and answers with the payment already made, or with not found for a worker who is not the farm's |
| PaymentProtocol.RetryAfterVoid | apps/web/src/mocks/handlers.ts:3231-3233 | a retry after its settlement was voided still pays, exactly when other money owed covers the amount |
| PaymentProtocol.SettleVoidRetry | apps/web/src/mocks/handlers.ts:3386-3420 | settled, voided and retried, a payment goes out exactly when as much was owed before any of it |
| PaymentProtocol.VoidedRetryPays | apps/web/src/mocks/handlers.ts:3231-3233 | a run of four requests from a new farm after which the retry pays |
| PaymentProtocol.PaymentWithinBalance | apps/web/src/api/endpoints.ts:1594-1597 | a payment takes no more than is owed when it is written |
| PaymentProtocol.EventSafe | apps/web/src/api/endpoints.ts:1369-1436 | each single event keeps what every approval is promised |
| WriteOnce.SharedExactly | apps/web/src/lib/writeOnce.ts:87-142 | two presses carry the same pair of ids exactly when they are of one intent and nothing retired it in between, and otherwise share neither |
| WriteOnce.OnceMintedExactly | apps/web/src/features/workers/PayWorkerPage.tsx:198-220 | ids are minted once per approved fact exactly when no retry of an intent that names work carries another gross, the one figure the intent leaves out |
| WriteOnce.PressesPayOnce | apps/web/src/features/workers/PayWorkerPage.tsx:198-275 | a screen that never does that pays at most once per approved fact over any interleaving of its requests |
| WriteOnce.NeverBreaksExactly | apps/web/src/features/workers/PayWorkerPage.tsx:198-275 | no run, from any farm, leaves anything unapproved under the ids of a press exactly when no retry carries another gross |
| WriteOnce.StaleGrossReplayed | apps/web/src/features/workers/PayWorkerPage.tsx:205-238 | a retry with another gross shares its first approval's ids, and once a settlement stands under them it is answered with the first gross and nothing is written |
| WriteOnce.Writer.Press | apps/web/src/lib/writeOnce.ts:106-123 | a press while a write is in flight does nothing; any other sends its figure under the ids held for its intent, minted now if there are none |
| WriteOnce.Writer.Retire | apps/web/src/lib/writeOnce.ts:96-104 | the loop forgets every slot of that intent and no other |
| WriteOnce.Writer.Finish | apps/web/src/lib/writeOnce.ts:125-136 | what landed is retired, what failed keeps its ids for the retry |
| GrossChange.ExplainGrossChange | apps/web/src/api/grossChange.ts:185-231 | the loop over the weeks computes exactly the joined explanation |
| GrossChange.ExplainsExactly | apps/web/src/api/grossChange.ts:185-231 | both figures, their difference, and the lines behind the ids: those that came as they are pending, those that left as they were approved |
| GrossChange.ReasonsFor | apps/web/src/api/grossChange.ts:268-301 | the causes are pushed newcomers first, then departures, then repriced weeks, with one fallback when there is none |
| GrossChange.CausesListed | apps/web/src/api/grossChange.ts:268-301 | the causes one by one: newcomers first with their number, then departures, then each repriced week with its two prices, or the one fallback |
| GrossChange.DetailsAreExact | apps/web/src/mocks/handlers.ts:963-990 | the refusal lists exactly the pending ids not asked for, the asked ids not pending, each once, and every week to be settled once at its price in force |
| GrossChange.DeltaIsDriftLessGone | apps/web/src/api/grossChange.ts:185-231 | with the work named, the figure moves by what surviving lines gained less what the removed lines shown were approved for |
| GrossChange.NewcomersDoNotCount | apps/web/src/mocks/handlers.ts:982-984 | added less removed plus the surviving lines' change is the difference exactly when what is pending beside the approved work is worth nothing, since a named settlement never takes it |
| GrossChange.RepricedExact | apps/web/src/api/grossChange.ts:200-219 | with weekly lines at their week's price, a week is reported exactly when it is still settled, priced an approved line and moved, with its old and new price |
| GrossChange.OnlyRepricedDrift | apps/web/src/api/grossChange.ts:168-184 | a surviving line kept its amount or its week is among those reported |
| GrossChange.RepricedTruthful | apps/web/src/api/grossChange.ts:200-219 | the report of a week is true exactly when no approved line was weekly, or all carried the week's price, or they differ and the price stayed |
| GrossChange.ReportTruthful | apps/web/src/api/grossChange.ts:200-219 | the list of repriced weeks is true exactly when each week still settled is reported truly |
| GrossChange.CauseShownExactly | apps/web/src/api/grossChange.ts:256-300 | a moved figure has a removed line or a repriced week to show exactly when approved work left, or a settled week's weekly lines carry one rate unlike its price now, or what survives comes to what was approved |
| GrossChange.UnexplainedExactly | apps/web/src/api/grossChange.ts:289-300 | the screen can name no cause exactly when nothing came, nothing left and no week is reported |
| GrossChange.MovedFigureHasCause | apps/web/src/api/grossChange.ts:256-300 | with weekly lines at their week's price and no edited quantity, a moved figure always has a removed line or a repriced week to show |
| GrossChange.SpecialPriceMisreported | apps/web/src/api/grossChange.ts:200-219 | an input where the report is false: a line at a person's or lote's own price is reported as its week repriced though its price did not move |
| GrossChange.QuantityEditUnexplained | apps/web/src/api/grossChange.ts:289-300 | an input with no cause to give: a corrected quantity on a frozen rate moves the figure |
| PriceRules.EntryOn | packages/shared/src/kiloPrice.ts:52-62 | the one-pass scan returns the entry in force |
| PriceRules.InForceIsLatest | packages/shared/src/kiloPrice.ts:51-62 | the entry in force is the latest not after the day, or none exactly when all are later |
| PriceRules.OrderDoesNotMatter | packages/shared/src/kiloPrice.ts:52-62 | with one price per date the order of the history does not matter |
| PriceRules.LaterEntriesDoNotReachBack | packages/shared/src/kiloPrice.ts:52-62 | prices dated later leave every earlier day at its price |
| PriceRules.NewestFirstSorts | apps/web/src/mocks/db.ts:662-668 | the server's sort keeps the same rows, newest first |
| PriceRules.SortThenFindAgrees | apps/web/src/mocks/db.ts:670-675 | sorting newest first and taking the first that applies agrees with the one-pass scan |
| PriceRules.ResolveKiloPrice | packages/shared/src/kiloPrice.ts:86-114 | the rule as it runs, stopping at the first unpriced lote, is person, else the lotes' common price, else week, else farm |
| PriceRules.ResolveExactly | packages/shared/src/kiloPrice.ts:63-114 | the order of the rule over the histories: the person's latest row not after the week, else one price every named lote's latest row carries, else the week's, else the base row in force, else the farm's positive price; and the source named is the one that decided |
| PriceRules.KiloPriceExactly | apps/web/src/mocks/db.ts:627-653 | where the rule has no answer the server reads nothing, as the farm's |
| PriceRules.WeekPriceExactly | apps/web/src/mocks/db.ts:597-618 | the other server reader over the histories: the week's own price, else the base row in force, else the farm's as it stands, else nothing |
| PriceRules.WeekReadersAgree | apps/web/src/mocks/db.ts:603-653 | with no person or lote price the two server readers agree, exactly unless a negative farm price is neither overridden nor covered by a base row |
| PriceWrites.ChangeReaches | apps/web/src/mocks/handlers.ts:2895-2917 | a dated price change reaches the days from its own until the next row's and no other |
| PriceWrites.PutSpecialChanges | apps/web/src/mocks/handlers.ts:2952-2974 | an accepted special price changes that person's or lote's history alone, and nothing else in the book |
| PriceWrites.DropSpecialChanges | apps/web/src/mocks/handlers.ts:2976-2991 | dropping takes that date out of that history alone, and nothing else in the book changes |
| PriceWrites.PutWeekChanges | apps/web/src/mocks/handlers.ts:2844-2856 | an accepted week price is that week's alone, and nothing else in the book changes |
| PriceWrites.PutBaseChanges | apps/web/src/mocks/handlers.ts:2895-2917 | an accepted base price reaches from its day to the next row's, and a farm with a price of its own takes the one in force this week |
| PriceWrites.ReadBaseChanges | apps/web/src/mocks/db.ts:662-668 | a history never read starts on Monday 3 January 2000 at the farm's price or at nothing; any other only gets sorted |
| PriceWrites.RefusedChangesNothing | apps/web/src/mocks/handlers.ts:5309-5313 | a day that is not a Monday or a price that is not positive changes nothing |
| PriceWrites.HistoriesStayKept | apps/web/src/mocks/handlers.ts:2844-2991 | through any run of price changes there is one row per date and target, base rows are priced and weeks are positive |
| PriceWrites.EverySyncAgrees | apps/web/src/offline/priceBook.ts:160-176 | for a farm whose base price was read once, every sync after any price changes makes the device agree with the server on every week since 3 January 2000 |
| DevicePrices.FetchWeekOverrides | apps/web/src/offline/priceBook.ts:69-100 | one unanswered week gives up the sync; otherwise exactly the weeks with a positive price unlike the base are kept |
| DevicePrices.BaseOnDevice | apps/web/src/offline/priceBook.ts:74-82 | the device's own scan for the base price is the shared rule |
| DevicePrices.MergeAnswers | apps/web/src/offline/priceBook.ts:107-124 | merged rows answer asked Mondays from the new rows and all others from the old, one row per Monday, shortcut or not |
| DevicePrices.WeekSurvives | apps/web/src/offline/priceBook.ts:61-100 | dropping overrides equal to the base and standing the current price in for the farm's loses a week's price exactly when it has no own price, no base row and no positive farm price while the current price is positive |
| DevicePrices.SyncAgrees | apps/web/src/offline/priceBook.ts:160-176 | after a sync every query for an asked Monday resolves as on the server, exactly when a person's or lote's price decides or the week is recoverable |
| DevicePrices.CopyCanInventPrice | apps/web/src/offline/priceBook.ts:127-142 | a history that starts after the week, with no farm price, makes the device answer the current price where the server has none |
| DevicePrices.DeviceKeepsOnePerWeek | apps/web/src/offline/priceBook.ts:107-124 | through every run of syncs and lookups the device keeps one row per Monday |
| DevicePrices.UnaskedWeeksKept | apps/web/src/offline/priceBook.ts:165-171 | a Monday nobody asks about keeps its override through every run |
| DevicePrices.EnsureAgrees | apps/web/src/offline/priceBook.ts:184-194 | one more Monday looked up on a book in hand: every query of it resolves as on the server under the same exact condition |
| DevicePrices.EnsureKeeps | apps/web/src/offline/priceBook.ts:178-194 | a Monday already priced is not looked up again, and no answer changes nothing |
| UploadQueue.Device.FlushPending | apps/web/src/offline/queue.ts:38-56 | one flush deletes exactly the rows accepted, flags exactly those refused with the server's reason, stops at the first failure worth retrying, a delete that fails included, ends with an error when a flag cannot be written, and leaves all else, in createdAt order |
| UploadQueue.FlushStopsExactly | apps/web/src/offline/queue.ts:33-56 | status by status: a flush stops at the first waiting row whose send failed with no status or with 0, 401, 408, 429 or 500 and above, and ends with an error at the first refusal it could not write down |
| UploadQueue.RefusalsHoldNothingUp | apps/web/src/offline/queue.ts:13-19 | when every answer is an acceptance or another status of the 400s, written down, the flush runs to its end: accepted rows are gone, refused ones carry the server's reason, every waiting row was tried |
| UploadQueue.Device.ListPending | apps/web/src/offline/store.ts:76-79 | the listing is the farm's rows and only them, oldest first |
| UploadQueue.Device.PutPending | apps/web/src/offline/store.ts:72-74 | a put replaces or adds the row under its id alone |
| UploadQueue.Device.DeletePending | apps/web/src/offline/store.ts:81-83 | a delete removes that id alone |
| UploadQueue.Device.Enqueue | apps/web/src/offline/queue.ts:58-60 | a weighing is stored unflagged under its own id |
| UploadQueue.ListingUnique | apps/web/src/offline/store.ts:76-79 | there is exactly one listing of a farm's rows |
| UploadQueue.ListingExactly | apps/web/src/offline/store.ts:76-79 | a listing goes by the instant a weighing was typed and then by id, and holds exactly the rows of the farm |
| UploadQueue.TriedExactly | apps/web/src/offline/queue.ts:38-44 | what goes on the network: the rows without a flag, in the order of the listing |
| UploadQueue.FlushSettles | apps/web/src/offline/queue.ts:9-19 | another farm's rows and rows flagged before are untouched, and an upload that ran to its end leaves nothing waiting |
| UploadQueue.CountsAreTrue | apps/web/src/offline/queue.ts:25-30 | the numbers a flush reports are the numbers of rows it deleted and of rows it flagged |
| UploadQueue.FailuresRunOut | apps/web/src/offline/queue.ts:38-56 | with nothing enqueued and k interrupted flushes among k+1, no row is left waiting |
| UploadSafety.NothingLost | apps/web/src/offline/OfflineContext.tsx:62-96 | over any interleaving of tabs, lost answers, late and repeated requests, replays after a 401 and closings, every weighing typed is on the device, on the server or removed by a person, and the server holds under an id only what was typed under it |
| UploadSafety.NothingEverLost | apps/web/src/offline/OfflineContext.tsx:62-96 | the same from an empty device and an empty server, with nothing assumed of the start |
| UploadSafety.ReturnsExactly | apps/web/src/offline/queue.ts:44-53 | a weighing off the device comes back exactly when a tab that was refused it writes its snapshot back, flagged |
| UploadSafety.GoneStaysGone | apps/web/src/offline/queue.ts:44-53 | in a run where no such write happens, what left the device stays off it |
| UploadReaches.UploadCompletes | apps/web/src/offline/queue.ts:38-56 | from any state a tab can bring its farm's rows through: what the server takes is there and off the device, what it refuses carries the reason, and no other row has moved |
| UploadReaches.TabMayAlways | apps/web/src/offline/OfflineContext.tsx:62-96 | closing, switching, giving up, refusals and one replay are possible at every moment and change only what they name |
| UploadReaches.WorldMayAlways | apps/web/src/offline/queue.ts:4-8 | a request that left may arrive as often as it likes, taken or not, and a person may remove any row |
| UploadFiling.FiledExactly | apps/web/src/api/client.ts:158-173 | one event keeps every request and record under the farm of its weighing exactly when it neither sends nor replays under another session |
| UploadFiling.FiledRunExactly | apps/web/src/api/client.ts:158-173 | a whole run leaves everything filed right exactly when it started right and every sending and replay in it was under its own farm |
| UploadFiling.OneRecordEach | apps/web/src/offline/queue.ts:2-8 | with no sending or replay across a farm switch, the server holds at most one record per id, equal to the weighing typed, under the farm it was taken on |
| UploadFiling.SwitchMisfiles | apps/web/src/offline/store.ts:13-14 | a farm switched during an upload files a weighing under the other farm and deletes it from the device |
| UploadFiling.ReplayMisfiles | apps/web/src/api/client.ts:158-173 | a session switched before a 401 is answered has the request replayed under the other farm, and the weighing misfiled, though every sending was under its own |
| UploadFiling.RemovedComesBack | apps/web/src/offline/queue.ts:44-53 | a run from the start in which a person removes a weighing while it is being refused, and gets it back |
| SessionRefresh.OneRefreshOneReplay | apps/web/src/api/client.ts:118-173 | over any interleaving, at most one refresh is running and each request is sent at most twice, the second time only behind a refresh that brought a token |
| SessionRefresh.PresentsHeldToken | apps/web/src/api/client.ts:122-135 | each refresh presents the token held when it starts, and starts only when none is running |
| SessionRefresh.UnspentExactly | apps/web/src/api/client.ts:129-152 | an event keeps the held token unpresented by a finished refresh exactly when it does not lose an answer whose token is still held |
| SessionRefresh.NeverPresentedTwice | apps/web/src/api/client.ts:122-156 | while no refresh answer is lost with its token still held, no refresh token is presented twice |
| SessionRefresh.OpenedPresentsOnce | apps/web/src/api/client.ts:122-156 | the same for a tab just opened, over its whole life, with nothing assumed of its state |
| SessionRefresh.TokensReturnExactly | apps/web/src/api/client.ts:122-152 | without tokens, an event brings some exactly when somebody signs in or a refresh started before is answered |
| SessionRefresh.SignedOutExactly | apps/web/src/api/client.ts:122-152 | a tab without tokens stays without them until somebody signs in exactly when no refresh was running |
| SessionEnds.LostAnswerRepeats | apps/web/src/api/client.ts:145-152 | two requests and one lost refresh answer present the same token twice |
| SessionEnds.RespondsExactly | apps/web/src/api/client.ts:158-199 | a response ends its request unless it is a 401; a 401 waits exactly when it answers a first sending of a tab with a session, joining the refresh running or starting one with the token held; any other 401 stands |
| SessionEnds.ResumesExactly | apps/web/src/api/client.ts:164-173 | a waiting request is sent a second time exactly when its refresh brought tokens, and otherwise keeps its 401 |
| SessionEnds.ReplayedExactly | apps/web/src/api/client.ts:164-173 | in any run, a waiting request goes out again exactly when the refresh it waited for was answered with tokens that were read |
| SessionEnds.RefreshEndsExactly | apps/web/src/api/client.ts:129-152 | a refused refresh leaves no session, one read leaves its tokens, one lost leaves the old ones; the promise is forgotten at each end |
| SessionEnds.SessionExactly | apps/web/src/api/client.ts:122-199 | a tab's session changes by signing in or out, a refused refresh, a refresh read or a 401 that stands, and by nothing else |
| SessionEnds.LivesExactly | apps/web/src/api/client.ts:99-116 | a request leaves once, and is over when the network fails it or its 401 has been read |
| SessionEnds.EndsForCause | apps/web/src/api/client.ts:189-199 | in any run a 401 ends the session only if its request was anonymous, came back to a tab without one, waited for a refresh that brought none, or had been sent twice |
| SessionEnds.ExpiredTokenRecovers | apps/web/src/api/client.ts:158-173 | a run: an expired token costs one refresh and one more sending, and the session goes on |
| SessionEnds.AlwaysPossible | apps/web/src/api/client.ts:112-156 | no outcome of the network, the server or a person is left out of the runs |
| SessionRefresh.Client.RefreshTokens | apps/web/src/api/client.ts:122-135 | up to its first await: joins the refresh in flight or starts one with the token held |
| SessionRefresh.Client.RawRequest | apps/web/src/api/client.ts:99-116 | one more request leaves, with whatever session the tab holds |
| SessionRefresh.Client.OnResponse | apps/web/src/api/client.ts:158-199 | a response is done, a 401 that stands, or a 401 that waits for a refresh: exactly the machine's step |
| SessionRefresh.Client.OnRefresh | apps/web/src/api/client.ts:136-140 | a refused refresh ends the session and forgets the promise |
| SessionRefresh.Client.OnRefreshBody | apps/web/src/api/client.ts:141-149 | a refresh read installs its tokens and forgets the promise |
| SessionRefresh.Client.OnRefreshLost | apps/web/src/api/client.ts:144-149 | a lost refresh answer leaves the tokens and forgets the promise |
| SessionRefresh.Client.OnResume | apps/web/src/api/client.ts:166-173 | a waiting request is sent once more behind a new token, or keeps its 401 |
| SessionRefresh.Client.OnUnauthorized | apps/web/src/api/client.ts:191-199 | a 401 that stands ends the session |
| Amount.AmountIsNearest | packages/shared/src/money.ts:101-119 | the amount is the integer nearest the exact product, ties away from zero, and the only one |
| Amount.AmountIsOdd | packages/shared/src/money.ts:101-119 | the amount is odd in the quantity and in the rate |
| Amount.AmountIsMonotone | packages/shared/src/money.ts:101-119 | at a rate that is not negative, more is never worth less |
| Amount.SpellingDoesNotMatter | packages/shared/src/money.ts:48-65 | texts of one number are worth the same |
| Amount.TrailingZeros | packages/shared/src/money.ts:48-65 | trailing zeros change nothing, nor does the point they need |
| Amount.ExponentMovesPoint | packages/shared/src/money.ts:48-65 | an exponent is the same as moving the point, also past the last digit |
| Amount.SumOfLinesBound | packages/shared/src/money.ts:67-119 | adding n rounded lines and rounding the sum differ by at most (n+1)/2 cents |
| Amount.ServerAgrees | apps/web/src/mocks/db.ts:88-111 | the mock's reading and multiplication agree on every plain decimal, with or without a point, exactly when the rate is not negative or less than half a cent is left over |
| Amount.ServerDisagrees | apps/web/src/mocks/db.ts:101-111 | half a kilo at minus one cent is where the two part |
| Spelling.DecimalExactly | packages/shared/src/money.ts:48-65 | a text is a decimal exactly when, without the blanks around it, it is a sign or none, digits, a point and digits or none, an exponent or none, and at least one digit before it; and then the number it denotes |
| Spelling.TrimExactly | packages/shared/src/money.ts:49-49 | trimming takes the blanks at both ends, all of them and nothing else |
| Text.SpacesExactly | packages/shared/src/money.ts:49-49 | the blanks, by code point |
| Spelling.AmountExactly | packages/shared/src/money.ts:101-119 | from the text to the cent: a decimal and a finite rate, rounded to the cent, have as amount the integer nearest their exact product, and nothing else has any |
| Uuid.ReadBack | packages/shared/src/uuid.ts:115-137 | a printed id is well formed and gives back its counter and the low 48 bits of its millisecond, which is the millisecond exactly below 2^48 |
| Uuid.StampOrder | packages/shared/src/uuid.ts:69-107 | below 2^48 ms ids sort as text the way their clock readings do |
| Uuid.OrderExactly | packages/shared/src/uuid.ts:69-107 | two ids sort as text exactly as their stamps do with the millisecond cut to 48 bits, whenever those differ |
| Uuid.OrderLostPastLimit | packages/shared/src/uuid.ts:69-107 | so the id after the last of 48 bits sorts before it |
| Uuid.IdsIncrease | packages/shared/src/uuid.ts:69-107 | over a whole run the ids strictly increase as text and read back their own clock |
| Uuid.Drift | packages/shared/src/uuid.ts:75-100 | the clock is never behind the largest instant asked for and ahead by at most one millisecond per 4096 calls |
| Uuid.AscendingIsExact | packages/shared/src/uuid.ts:75-100 | instants asked in ascending order are used unchanged |
| Uuid.RandomExactly | packages/shared/src/uuid.ts:87-107 | two ids of one clock reading are one text exactly when all 62 random bits used are the same |
| Uuid.Generator.Next | packages/shared/src/uuid.ts:69-107 | the closure's two variables step as the clock does and the id is that clock printed |
| Geometry.CrossIffMeet | apps/web/src/lib/geo.ts:250-272 | over the reals the test is true exactly when the two closed segments share a point |
| Geometry.OpenCloseInverse | apps/web/src/lib/geo.ts:151-162 | opening and closing undo each other exactly on the rings the other leaves alone |
| Geometry.SelfIntersection | apps/web/src/lib/geo.ts:283-296 | nothing is returned exactly when no two non-adjacent edges of a ring of four or more meet, otherwise the first such pair |
| Geometry.ReversalKeepsAnswer | apps/web/src/lib/geo.ts:283-296 | drawing the boundary the other way round never changes the answer |
| Geometry.RotationExact | apps/web/src/lib/geo.ts:151-154 | starting at another vertex gives the same answer, but for a seam on a corner written twice, which is dropped |
| Geometry.RotationCanChangeAnswer | apps/web/src/lib/geo.ts:151-154 | a square with one corner written twice is refused as drawn and accepted from that corner |
| Calendar.DateIs | packages/shared/src/time.ts:21-30 | days and existing dates are one to one |
| Calendar.IsoRoundTrip | packages/shared/src/time.ts:21-24 | a printed day reads back, exactly from the year 100 on |
| Calendar.IsoOrder | packages/shared/src/time.ts:8-10 | printed days sort as text the way days do |
| Calendar.WeekIsMondayToSunday | packages/shared/src/time.ts:33-39 | there is one Monday to a day and the seven days from it share it |
| Calendar.MondayIdempotent | packages/shared/src/time.ts:33-39 | the Monday of a Monday is itself, exactly unless it falls in the year 99 |
| Calendar.EndOfWeekCloses | packages/shared/src/time.ts:41-51 | the Sunday closes exactly the week that starts on the Monday, as far as the year 9999 |
| Calendar.WeekNumberIsIso | packages/shared/src/time.ts:64-70 | the number is the ISO one for every Monday whose Thursday is not in the year 99 |
| Calendar.WeeksRestart | packages/shared/src/time.ts:64-70 | week numbers are 1 to 53, go up by one, and restart with the week of the first Thursday |
| DateFields.LastOfMonth | apps/web/src/lib/dates.ts:235-238 | the days of a month, from the year 100 |
| DateFields.ValidExactly | apps/web/src/lib/dates.ts:227-233 | a key is accepted exactly when its day exists, from the year 100 |
| DateFields.AssembleExactly | apps/web/src/lib/dates.ts:279-284 | three numbers make a day exactly when it exists and its completed year is 1900 to 2200 |
| DateFields.TypedDayExists | apps/web/src/lib/dates.ts:240-285 | whatever is typed, what comes back is an existing day of 1900 to 2200 |
| DateFields.TypedRoundTrip | apps/web/src/lib/dates.ts:257-288 | every day of 1900 to 2200 survives being printed in the field and read back, whatever the reference year |
| DateFields.AnySeparator | apps/web/src/lib/dates.ts:262-270 | slashes, dashes, dots and spaces read the same |
| DateFields.SeparatorsExactly | apps/web/src/lib/dates.ts:263-263 | the separators, by code point |
| DateFields.EightDigits | apps/web/src/lib/dates.ts:271-274 | eight digits in a row read as the same day |
| DateFields.ShortForms | apps/web/src/lib/dates.ts:265-281 | a missing year is the reference year and a two-digit one is of its century |
| Spelling.TypedExactly | apps/web/src/lib/dates.ts:240-285 | whatever is typed is a day exactly when its words are two or more numbers, or it is six or eight digits, and the three numbers make a day of 1900 to 2200 |
| DateFields.Typed | apps/web/src/lib/dates.ts:52-57 | the field prints day, month and four-digit year |
| DateFields.GridCoversMonth | apps/web/src/lib/dates.ts:290-304 | the grid is 42 days from a Monday and holds every day of the month in its place |
| Csv.CsvRoundTrip | apps/web/src/lib/csv.ts:49-52 | a semicolon reader of section 2 of RFC 4180 gives back every row and cell as rendered |
| Csv.CsvIsExact | apps/web/src/lib/csv.ts:49-52 | exactly as rendered if and only if no row is empty |
| Csv.FieldReads | apps/web/src/lib/csv.ts:31-37 | a written field reads back whatever is in it |
| Csv.PlainFieldExactly | apps/web/src/lib/csv.ts:31-37 | quotes stand around a field exactly when it holds one, a separator or a line break |
| Csv.TextCellExactly | apps/web/src/lib/csv.ts:16-29 | a text cell is the text, or the text behind one apostrophe, the latter exactly when it begins like a formula and is no number: an optional minus, digits, and at most one mark with digits after it |
| Csv.PlainNumberExactly | apps/web/src/lib/csv.ts:19-24 | the scan accepts exactly an optional minus, digits, and nothing or one point or comma with digits |
| Csv.NeverRuns | apps/web/src/lib/csv.ts:16-29 | no cell a spreadsheet would run is left, and guarding twice is guarding once |
| Csv.NeutralizedClash | apps/web/src/lib/csv.ts:26-29 | two texts share a cell exactly when they are one text or one is the other, a guarded one, with the apostrophe typed in |
| Csv.NumberReads | apps/web/src/lib/csv.ts:38-43 | a number cell is never quoted, and reads as its value rounded once to the nearest thousandth |
| Csv.NumberShape | apps/web/src/lib/csv.ts:38-43 | a number cell is as short as it can be: a comma exactly when there are thousandths beyond the units, and no zero at their end |
| Csv.CsvShape | apps/web/src/lib/csv.ts:49-52 | a file starts with the byte-order mark and every line ends with a carriage return and a line feed, the last one too |
| Csv.StartersExactly | apps/web/src/lib/csv.ts:22-22 | what a formula starts with, by code point |
| PesoText.Group | apps/web/src/lib/money.ts:23-30 | the left-to-right loop puts a dot every three digits from the right |
| PesoText.GroupedErases | apps/web/src/lib/money.ts:23-30 | grouping only adds separators |
| PesoText.MoneyBoxRoundTrip | apps/web/src/lib/money.ts:103-139 | the box reads back every amount of cents put into it |
| PesoText.BoxShape | apps/web/src/lib/money.ts:131-139 | a box holds digits alone, but for a minus before a debt and, exactly where there are cents, a comma before the last two |
| Spelling.PlainExactly | apps/web/src/lib/money.ts:103-139 | a cleaned text is a number exactly when it is a minus or none, digits and a point with digits or none |
| Spelling.HalfUpExactly | apps/web/src/lib/money.ts:103-109 | cents are rounded to the nearest, halves up whatever the sign |
| PesoText.MoneyShownIsRounded | apps/web/src/lib/money.ts:50-61 | what is shown reads back as the amount rounded to the peso, half away from zero |
| PesoText.MoneyShownIsGrouped | apps/web/src/lib/money.ts:23-61 | an amount shows its peso sign and then a separator every three digits from the right and nowhere else |
| PesoText.ShownIsExact | apps/web/src/lib/money.ts:50-61 | what is shown is the amount exactly when there are no cents |
| PesoText.QuantityShownInTenths | apps/web/src/lib/money.ts:71-85 | a quantity shows at most one decimal digit and denotes the value rounded once to tenths |
| PesoText.QuantityShape | apps/web/src/lib/money.ts:71-85 | a comma exactly when the tenths do not make units, one digit after it and no zero; a minus exactly when something is left to sign |

## Left out

- Pages, components, routing, Spanish wording, roles and guards: no deep invariant; the rule on what a weigher may record is kept.
- `fetch`, IndexedDB, the service worker and tab messaging: steps that succeed, fail, or succeed with a lost answer.
- The Go server, its SQL and its row locks: only the in-memory handlers are modelled; the Go settlement is cited where it differs.
- Requests with a missing field or a malformed date, an unknown payment method or a rounded magnitude sent as text: refused before the modelled code.
- Tokens, passwords, seals, slugs, stock, sales, expenses, reports and receipts: outside who is owed what.
- Areas, distances, map projection and the approximate point-in-ring tests: trigonometry.
- Float rounding and time zones: exact numbers and civil days.
- Numbers so large that the runtime prints an exponent or reads infinity, in `Csv`, `PesoText` and `DateFields`.
- `formatPeriod`, `formatWeekRange` and the other display forms of a date: finite case splits on the same parts.
- `debtsOf` orders its rows newest first; `Ledger.Debts` lists them in ledger order.
- Day keys of other shapes than four, two and two digits: the runtime's number parsing of arbitrary text.
- FarmServer.Farm.constructor: starts with people and prices alone; the catalog a new farm is seeded with is not modelled.
- FarmServer.Farm.PutBasePrice: does not record when a price was written.
- FarmServer.Farm.RemoveWork: finds a record by its id and then asks whether it is deleted; the source looks for an undeleted one, which is the same while ids are distinct.
- UploadQueue.Device.FlushPending: a listing that cannot be read at all is not modelled; the source fails before it sends anything.
- PaymentProtocol.CreatePayment: nobody else writes between its two reads of the balance; interleaved writes are in `PaymentProtocol.OneApprovalOnePayment`, without the reads.
- WriteOnce.Writer.Press: an intent is a value and not the text its parts are joined into, and the id of an advance that goes with a payment is not followed.
- GrossChange.ReasonsFor: gives the causes and their counts, not their Spanish.
- SessionRefresh.Client.RawRequest: the request's body and headers are not modelled, and an aborted request is one whose network failed.
