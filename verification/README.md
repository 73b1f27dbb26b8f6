# LealFinance: a model of its ledger, its undo journal and its protocols

LealFinance derives its numbers from a ledger instead of storing them, and lets
an assistant write to that ledger under an undo journal. This project models the
places where two independent computations must agree, or where interleaved steps
must keep an invariant, and proves that they do. Where the code does not have a
property in full, the model keeps the code as it is, gives a concrete input, and
proves the exact condition under which it holds.

`dafny verify dfyconfig.toml` checks the whole project.

| files | what they model |
|---|---|
| `Store`, `JournalReplay`, `UndoExactness`, `UndoRefusal`, `ChangeJournal`, `CallRecord` | the relational store (foreign keys with RESTRICT, CASCADE and SET NULL, savepoints), the row trigger, and undo: backwards replay with deferral, the side-effect check, rollback |
| `CascadeDelete` | the application's foreign keys and the nine statements that delete accounts with everything depending on them |
| `Calendar`, `Recurrence`, `CardCycles` | Gregorian dates with clamped month arithmetic, the recurrence projector, billing cycles |
| `Ledger`, `CardInvoices`, `InvoiceProperties`, `InvoiceForecast`, `CardPayments`, `PaymentProperties`, `AutoPayPass`, `PaymentRuns`, `BalanceTrend` | signed legs and balances, card invoices and their forecast, paying them by hand and automatically, the balance trend |
| `Backups`, `BackupRestore`, `RestoreFidelity`, `BackupRoundTrip`, `BackupPreview` | export, new ids, remapped references, all-or-nothing replacement, preview |
| `StreamGates`, `TurnLoop` | the two streaming filters, the assistant's turn loop, rebuilding turns from stored messages |
| `AttemptLimiter`, `ConfirmClaim` | interleaved sign-in attempts, interleaved confirmations |
| `Positions`, `SchemaFlattener` | average-cost positions, inlining of possibly cyclic schemas |

Code that changes state is modelled by classes and methods proved against
functions; what the source promises is proved about those functions. Money is in
units of 0.0001 (`backend/app/models/types.py:18`). Times are integers. The clock,
new ids, the providers' responses, and the database's CHECK, UNIQUE and NOT NULL
constraints are parameters.

## Where the code does less than a plain reading promises

- A cycle does not show the same paid amount in every window: a payment tagged for
  a cycle but dated outside the window is missed (`EarlyPaymentIsMissed`). Any two
  windows that list the cycle agree if and only if its payments are dated in the
  narrowest of them (`PaidIsWindowFreeIff`), which "from the cycle's start up to
  today" implies.
- For the same reason paying can overpay. A payment dated outside the window that
  paying looks at is not seen by the next request (`UnseenPaymentRepeats`,
  `OldPaymentIsTakenTwice`, `DefaultRequestOverpays`); it counts if and only if it is
  dated in that window (`PaymentIsSeenIff`). An accepted payment keeps a cycle within
  its total if and only if the earlier payments it does not see come to no more than
  what it adds to the total (`OverpaymentIff`), that is, when it leaves the opening
  balance alone, if and only if it sees them all (`NoOverpaymentIff`).
- The window moves with the days, so a payment that is seen today may be out of sight
  tomorrow, and two calls each dated in the window of its own day can overpay
  (`TwoDaysOverpay`). `StaysSeenIff` says exactly which dates stay in sight; calls with
  such dates keep all payments in sight, and no others do (`SteadyAfterIff`). Then no
  sequence of calls over any days that leaves the opening balance in place overpays a
  total that does not drop (`NeverOverpaid`, `NeverOverpaidOverDays`). A date from the cycle's start up to the day of the call is
  one (`TimelyStaysSeen`), and so are those of the automatic payments.
- Paying one cycle can change another's total, because a payment dated before all
  activity moves the opening balance (`EarlyPaymentMovesTheOpening`); it does not if
  and only if there is no opening balance or the date leaves it in its cycle
  (`OtherCyclesUnchangedIff`).
- Deleting accounts is refused by a CHECK exactly when a surviving auto-pay card is
  paid from one of them (`CascadeDeleteAccounts`, `AutoPayStopsTheDeletion`).
- `max_attempts` + 1 grants span the lockout less the time that can pass between a
  request's clock read and its update (`GrantsSpanTheLockout`); that much can really
  be lost, so the full lockout holds if and only if no time passes between the two
  (`DelayIsLost`, `FullLockoutIff`).
- Two messages sent to an idle conversation start two turns, and then two requests
  can hold a claim at once (`OverlappingTurnsShareTheClaim`); each call still settles
  at most once (`CallsSettleOnce`). While turns do not overlap one request at most
  holds a claim (`OneClaimAtATime`); as soon as two overlap, two requests can come to
  hold one (`TwoTurnsTwoHolders`, `OneHolderIff`).
- A restored category does not keep its modification time: the statement that gives
  it its group's colour also touches `updated_at` (`backend/app/models/base.py:24-29`,
  `backend/app/services/backups.py:461-465`). The round trip is a plain isomorphism if
  and only if every category had that colour and that time already
  (`RoundTripIsExactIff`, `TimeIsLost`).
- The forecast of a cycle reads a recurring rule's converted amount of exactly zero as
  no conversion, while its posting would charge nothing; a rule's share of the forecast
  is what its postings will charge if and only if that is not so
  (`ShareIsForetoldIff`).

## Model

| member | source | states |
|---|---|---|
| Store.Database.FireTriggers | backend/app/models/change_journal.py:56-84 | While a call is tagged the row trigger appends one entry, with the true before and after images, for every row of a journaled table that the statement changed, no row twice, and no other kind of entry; untagged it appends nothing; earlier entries are untouched. |
| Store.Database.DeleteRows | backend/app/models/change_journal.py:56-84 | A DELETE either fails (a RESTRICT reference from outside the deleted set, or a constraint) and changes nothing, or removes the rows and everything that cascades, clears SET NULL links, and the trigger records all of it. |
| Store.Database.InsertRow | backend/app/models/change_journal.py:56-84 | An INSERT fails and changes nothing on a taken key, a missing referenced row or a refused constraint; otherwise it adds that one row and the trigger records it. |
| Store.Database.UpdateRows | backend/app/models/change_journal.py:56-84 | An UPDATE of several rows is all or nothing and is recorded row by row. |
| Store.DeletedProperties | backend/app/services/change_journal.py:151-241 | The set a DELETE removes contains the selected rows and is closed under ON DELETE CASCADE. |
| Store.DeletedIsLeast | backend/app/services/change_journal.py:151-241 | It is the least such set: nothing is deleted that no cascade requires. |
| Store.DeleteKeepsClosed | backend/app/services/change_journal.py:151-241 | A DELETE that succeeds leaves no dangling reference in a referentially closed store. |
| Store.WritesKeepClosed | backend/app/services/change_journal.py:151-209 | An INSERT or UPDATE that succeeds leaves no dangling reference either, and an INSERT never overwrites a row. |
| Store.WritesRefusedIff | backend/app/services/change_journal.py:151-209 | Apart from the other constraints an INSERT is refused if and only if its key is taken or it refers to a missing row, and an UPDATE if and only if a new image refers to a missing row. |
| JournalReplay.Revert | backend/app/services/change_journal.py:151-209 | Reverting one entry does what its inverse does, or raises and changes nothing: ConflictIff says when it is a conflict, InverseAtRow and InverseElsewhere what it puts back. |
| UndoRefusal.ConflictIff | backend/app/services/change_journal.py:136-199 | A revert is a conflict if and only if: for a delete, the user has the row again or the image is missing or not the user's; otherwise, the row is gone or not the user's, or some column other than updated_at and conversion_* differs from the entry's after image, or it is a reconciled transaction and an amount, date, account, type, currency or conversion column would change. |
| JournalReplay.Attempt | backend/app/services/change_journal.py:212-241 | One revert inside its savepoint: on any failure the rows and the log are exactly as before. |
| JournalReplay.Pass | backend/app/services/change_journal.py:212-241 | One pass over the pending entries applies or defers each: each row's history stays split, in order, into what is done and what is deferred, so no write is reverted before a later one of its row; nothing is added to the pending list. |
| JournalReplay.Replay | backend/app/services/change_journal.py:212-241 | The replay always ends. When it succeeds the run it made applied every entry, each row's in the given order, over any number of passes. It is refused only where it is stuck: the next revert of some row fails for a reason other than a foreign key, or a foreign key blocks the next revert of every row left; and never when the reverts apply in the given order as they stand. |
| ChangeJournal.ReplayReversesHistory | backend/app/services/change_journal.py:212-241 | A successful replay applies the inverses of each row in exactly the reverse of that row's history, and applies each journal entry exactly once (the applied entries are the same multiset). |
| ChangeJournal.EffectsAreExpected | backend/app/services/change_journal.py:273-295 | The side-effect check accepts exactly when every change logged under the undo tag is the inverse of one of the call's own writes. |
| ChangeJournal.ExpectedFromLog | backend/app/services/change_journal.py:273-295 | So a replay that passes the check removed or altered nothing but rows the call itself had written. |
| ChangeJournal.PendingMembers | backend/app/services/change_journal.py:244-262 | The entries an undo works on are exactly the user's not yet undone entries of that call. |
| ChangeJournal.MarkedIsDone | backend/app/services/change_journal.py:296-312 | After the marking nothing of the call is pending, it is still known, and the entries the undo itself logged are gone. |
| ChangeJournal.Undo | backend/app/services/change_journal.py:244-312 | Undo refuses rows that moved on: on success every row the call wrote was, when undo began, as the call's newest write left it in every column but updated_at and conversion_*, save SET NULL links into rows the call created. It is exact: such a row then holds its image from before the call's first write (absent if the call created it) and every other journaled row is as it was, cascades and SET NULL included. When it raises, rows and journal are unchanged and either the replay was stuck or it would have changed something else. With nothing pending it returns 0 (or not found) and changes nothing, which every success leads to; entries of other users and calls stay, in order. |
| ChangeJournal.OthersStay | backend/app/services/change_journal.py:296-312 | Marking the call and dropping the undo's own entries leaves the entries of every other user and call as they are, in order. |
| UndoRefusal.UntilFirst | backend/app/services/change_journal.py:212-312 | Until its own first revert a row of the call is the row that undo found, except for SET NULL links cleared by the removal of a row that undo may remove; or it went with a row the call created. |
| UndoRefusal.UndoneWasAsLeft | backend/app/services/change_journal.py:136-177 | Any replay that passed the side-effect check found every row of the call as its newest write left it: present, the user's, and equal to the after image outside the ignored columns and such links; after a delete, absent. |
| UndoRefusal.LinksIntoCreated | backend/app/services/change_journal.py:136-177 | Where a row and what it refers to have one owner, the only link that may differ is one into a row the call itself created. |
| UndoExactness.OldestImage | backend/app/services/change_journal.py:244-312 | A row's oldest entry of the call holds the row as it was before the call, and is an insert exactly when the row did not exist. |
| UndoExactness.InverseAtRow | backend/app/services/change_journal.py:151-209 | A successful inverse leaves its own row equal to the entry's before image. |
| UndoExactness.InverseElsewhere | backend/app/services/change_journal.py:151-209 | An inverse changes another row only through the cascade or SET NULL of a row it deletes. |
| UndoExactness.SettledRowsStay | backend/app/services/change_journal.py:212-312 | At every point of the replay, a row whose oldest entry has been reverted holds its image from before the call, whatever is reverted after it. |
| UndoExactness.UntouchedRowsStay | backend/app/services/change_journal.py:273-312 | At every point of the replay a journaled row the call did not write is as it was when the undo began. |
| UndoExactness.UndoIsExact | backend/app/services/change_journal.py:244-312 | The exactness theorem over any replay that passed the side-effect check. |
| CallRecord.StatementExtends | backend/app/models/change_journal.py:56-84 | A tagged statement with new ids extends a call's record: the trigger's entries carry the images its writes found, in a state that the record tracks. |
| CallRecord.CallIsRecorded | backend/app/services/change_journal.py:244-262 | So for any call made of such statements, whatever else is in the journal, what is pending for it is exactly the trigger's log, and that is the record of the state before the call that the exactness of undo asks for. |
| CascadeDelete.DeleteSelected | backend/app/services/accounts.py:444-543 | Each of the first eight DELETE statements, its subqueries evaluated on the rows left by the ones before it, meets no RESTRICT reference and removes exactly its stage. |
| CascadeDelete.CascadeDeleteAccounts | backend/app/services/accounts.py:430-563 | For every set of accounts: refused as not found exactly when one is not the user's; otherwise it succeeds exactly when no surviving auto-pay card is paid from a deleted account, fails only by that CHECK, and never by a foreign key; a failure changes nothing; success leaves exactly the survivors. |
| CascadeDelete.SelectionKept | backend/app/services/accounts.py:444-543 | Re-evaluating a statement's subqueries after the earlier statements selects what it would have selected at the start, less what is already gone. |
| CascadeDelete.StatementUnreferenced | backend/app/services/accounts.py:444-543 | When a statement runs, no remaining row holds a RESTRICT reference into what it deletes. |
| CascadeDelete.ClearingLinks | backend/app/services/accounts.py:544-558 | Clearing the survivors' payment links is refused exactly when it would leave an auto-pay card with no payment account. |
| CascadeDelete.UnlinkedProperties | backend/app/models/account.py:62-65 | The CHECK holds after clearing the links if and only if no surviving auto-pay card is paid from a deleted account, a condition on the rows before the call. |
| CascadeDelete.AutoPayStopsTheDeletion | backend/app/models/account.py:62-65 | The refusal happens: a card with auto-pay, paid from the account that is to go. |
| CascadeDelete.DeletingAccounts | backend/app/services/accounts.py:559-563 | The last DELETE succeeds: nothing refers to the accounts any more. |
| CascadeDelete.SurvivorsAreClosed | backend/app/services/accounts.py:430-563 | The deletion leaves no dangling reference. |
| CascadeDelete.SurvivorsKeepTheirColumns | backend/app/services/accounts.py:430-563 | A survivor keeps its owner and every column, except that a payment, loan or recurring-rule link to a removed row becomes null, and an account that loses its payment link is stamped with the time of the statement. |
| CascadeDelete.RemovedIsLeast | backend/app/services/accounts.py:430-563 | Exactly what must go goes: the removed rows are the least set that holds the accounts and every row bound by a RESTRICT or CASCADE reference to a removed row. |
| Calendar.OrderIsLexicographic | backend/app/services/card_invoices.py:69-77 | The day rank the model compares by is the order of dates by year, month and day, and identifies a date. |
| Calendar.DaysAreConsecutive | backend/app/services/card_invoices.py:69-94 | The successor of a day is the least later day of the Gregorian calendar. |
| Calendar.DayStep | backend/app/services/card_invoices.py:69-94 | Next and previous day are inverse and cross at most one month end. |
| Calendar.AddMonthsIsLatest | backend/app/services/card_invoices.py:69-77 | Adding any number of months, either way, lands in the target month, on the latest of its days that is no later than the wanted day. |
| Calendar.OnDayMonotone | backend/app/services/card_invoices.py:69-77 | Clamped month days are ordered as their months are. |
| Calendar.YearLength | backend/app/services/card_invoices.py:69-77 | Counting single days from 1 January reaches the next 1 January after 366 days if and only if the year is a multiple of 4 and not of 100, or of 400; otherwise after 365. |
| Recurrence.AddMonthsClampedIsOnDay | backend/app/services/recurrence.py:21-29 | Clamping is always from the start's own day, so there is no drift through short months. |
| Recurrence.OccurrencesIncrease | backend/app/services/recurrence.py:32-39 | Later occurrences fall on strictly later dates, for every frequency. |
| Recurrence.OccurrenceSpacing | backend/app/services/recurrence.py:21-39 | The next weekly occurrence is 7 days times the interval later; monthly and yearly ones fall that many months or years after the start, on its day of the month or, where there is none, on the month's last day. |
| Recurrence.NothingAfterBreak | backend/app/services/recurrence.py:42-68 | Once an occurrence is past the range or the end date no later one counts, so both early breaks lose nothing. |
| Recurrence.ProjectOccurrenceDates | backend/app/services/recurrence.py:42-68 | The loop with its breaks and its cap computes the projection, which the next two rows characterise. |
| Recurrence.ProjectionIsExact | backend/app/services/recurrence.py:42-68 | The projection is strictly ascending, and below the 2000-occurrence cap it holds a date if and only if some start-anchored occurrence, of any index, falls on it within the range and not past the end date. |
| Recurrence.AdjacentProjections | backend/app/services/recurrence.py:42-68 | Projections over adjacent ranges concatenate to the projection over their union, with the cap or without. |
| CardCycles.CycleCloseIsLeast | backend/app/services/card_invoices.py:80-86 | For every closing day 1-31 the close of a charge is the least close date on or after it. |
| CardCycles.OwnClose | backend/app/services/card_invoices.py:80-86 | A date is its own close exactly when it is a close date. |
| CardCycles.PeriodsTile | backend/app/services/card_invoices.py:80-86 | A date lies in the period of a close date if and only if that is its close: the periods cover the calendar and are disjoint. |
| CardCycles.PeriodsAdjacent | backend/app/services/card_invoices.py:157-166 | Each period is non-empty, begins the day after the previous close and steps to the next close month by month without drift. |
| CardCycles.DueDateIsNext | backend/app/services/card_invoices.py:89-94 | The due date is the first date with the due day that falls strictly after the close. |
| CardCycles.ListCloses | backend/app/services/card_invoices.py:157-166 | The cursor loop lists the closes from months_back before the current one to months_ahead after it. |
| CardCycles.ListedCycles | backend/app/services/card_invoices.py:157-166 | The list has exactly months_back + months_ahead + 1 entries, all genuine close dates in order with adjacent periods, and exactly one of them, at position months_back, contains today. |
| CardCycles.ListedExactly | backend/app/services/card_invoices.py:157-166 | A genuine close date is in the list if and only if its month is in the window. |
| CardCycles.SpanListsEveryClose | backend/app/services/card_invoices.py:311-315 | The span paying an invoice uses lists every genuine close date, however far. |
| CardCycles.DueSoonIsListed | backend/app/services/card_invoice_posting.py:49-52 | Every invoice due in the last seven days is in the two-month window the auto-pay looks at, and is over. |
| Ledger.BalanceIsDeltas | backend/app/services/accounts.py:99-186 | The balance, a sum over three unions of legs, equals the opening balance plus each transaction's signed effect on the account and each existing-position buy, up to the date. |
| Ledger.PostingMoves | backend/app/services/accounts.py:99-186 | One more transaction moves balances as money moves: an expense lowers its account, income and interest raise it, by the converted amount if there is one; a transfer takes its amount from one account and gives the converted one to the other; nothing else moves. |
| Ledger.TransferConserves | backend/app/services/accounts.py:99-186 | A transfer without conversion leaves the sum of the two balances as it was. |
| CardInvoices.ListInvoices | backend/app/services/card_invoices.py:138-269 | Not a card: refused. Otherwise the loops over dictionaries compute, for each listed cycle, the invoice of the reference definition over the whole ledger, whose numbers InvoicesAgreeWithLedger ties to the balance and ForecastIsPosting to the recurring postings to come. |
| CardInvoices.OpenTotals | backend/app/services/card_invoices.py:183-196 | The opening balance goes into the cycle of the first activity (or of today), once, and into no other. |
| CardInvoices.BucketTransactions | backend/app/services/card_invoices.py:198-208 | Bucketing the fetched transactions gives every listed cycle all its charges of the ledger and the payments dated in the window. |
| CardInvoices.AddProjections | backend/app/services/card_invoices.py:210-237 | Projected charges are added only to cycles not over, from the later of the period start and tomorrow; what is added is what SharesAreForetold says. |
| InvoiceForecast.ShareIsForetoldIff | backend/app/services/card_invoices.py:210-237 | A rule's share of a cycle equals what the ledger will owe there once the rule has posted one transaction per projected date, sign and converted amount included, if and only if both read the same amount: a template conversion of exactly zero is read as no conversion by the forecast alone. |
| InvoiceForecast.SharesAreForetold | backend/app/services/card_invoices.py:210-237 | So the whole forecast of a cycle is what the postings of all the card's rules will charge there. |
| InvoiceForecast.ForecastIsPosting | backend/app/services/card_invoices.py:210-237 | An unfinished cycle owes with its forecast what it owes with those transactions posted and no forecast. |
| InvoiceForecast.TotalSurvivesPosting | backend/app/services/card_invoices.py:138-237 | No invoice jumps as its recurring charges are posted: from one day to any later one, with everything the rules post in between booked, the total of every cycle stays the same, provided the card has been used before. |
| InvoiceForecast.StatusIff | backend/app/services/card_invoices.py:239-254 | Each status holds if and only if: projected before the period, open within it, and after the close paid when nothing is left, otherwise closed up to the due date and overdue after it. |
| CardInvoices.FetchKeepsCharges | backend/app/services/card_invoices.py:167-208 | Reading only the window loses no charge of a listed cycle. |
| InvoiceProperties.InvoicesAgreeWithLedger | backend/app/services/card_invoices.py:119-237 | Over a window covering the card's activity, with every payment tag a listed close date, the sum of (total - paid) less the projected part equals the negated account balance at the last close, opening balance and converted amounts included. |
| InvoiceProperties.CyclesSumToDeltas | backend/app/services/card_invoices.py:119-237 | Charges less payments over distinct cycles are the negated sum of the transactions' effects on the account. |
| InvoiceProperties.OpeningCountedOnce | backend/app/services/card_invoices.py:183-196 | The opening balance enters the sum of the invoices exactly once. |
| InvoiceProperties.PaidWithinIff | backend/app/services/card_invoices.py:167-208 | What a window shows as paid is never more than what was paid, and is all of it if and only if every payment of the cycle is dated in the window. |
| InvoiceProperties.PaidIsWindowFreeIff | backend/app/services/card_invoices.py:157-269 | A cycle shows the same paid amount in any two windows that list it if and only if its payments are dated in the narrowest such window. |
| InvoiceProperties.PaidIsWholeIff | backend/app/services/card_invoices.py:157-269 | Every window that lists the cycle shows all that was paid to it over the whole ledger under exactly the same condition. |
| InvoiceProperties.InvoiceIsWindowFree | backend/app/services/card_invoices.py:157-269 | With payments dated from the cycle's start up to today, total, paid, remaining and status are the same in every window that lists the cycle. |
| InvoiceProperties.EarlyPaymentIsMissed | backend/app/services/card_invoices.py:157-269 | Without that condition it is false: a payment tagged for June but dated in January is shown by one window and missed by another. |
| CardPayments.Book.PayInvoice | backend/app/services/card_invoices.py:287-355 | Paying has exactly the specified outcome: each refusal in its order, the transaction service's own last, or one transfer of the asked (or the whole remaining) amount tagged with the close date; a refusal posts nothing. |
| AutoPayPass.RefusalIsTrue | backend/app/services/card_invoices.py:287-353 | Every refusal of a request gives a reason that is true of it. |
| AutoPayPass.PostedIff | backend/app/services/card_invoices.py:287-353 | A request is taken if and only if the cycle is a genuine one of a configured card and has begun, the amount is positive and within what is owed, and the money comes from another live account in the card's currency that is no credit card; what is posted is that transfer, tagged with the cycle. |
| CardPayments.Book.PostDueInvoicePayments | backend/app/services/card_invoice_posting.py:38-70 | The loop carries out the pass that PassPaysWhatIsDue describes, stops at the first refusal with the earlier payments kept, and reports exactly the cycles it posted, in order; with auto-pay off, the card archived or no cycle configured it does nothing. |
| AutoPayPass.PassPaysWhatIsDue | backend/app/services/card_invoice_posting.py:38-70 | A pass that is not stopped leaves nothing owed in any genuine cycle that fell due from seven days ago to today. Each of its payments is dated today, is from the card's payment account, and is the whole of what one such cycle owed before the pass; no cycle is paid twice and no other cycle changes. If it is stopped, a cycle that is due was refused. |
| AutoPayPass.PassSeesLess | backend/app/services/card_invoice_posting.py:49-56 | The narrow listing a pass looks at never shows less owed than paying does, so a cycle it skips as paid is paid. |
| CardPayments.ClosingDayChangeAllowed | backend/app/services/accounts.py:342-356 | A closing day may change exactly when every payment tag of the card is a close date under the new one. |
| CardPayments.InvoiceIsFound | backend/app/services/card_invoices.py:311-322 | Paying finds the invoice if and only if the date is a genuine close date of the card. |
| PaymentProperties.PostedPayment | backend/app/services/card_invoices.py:320-355 | A posted payment is a positive transfer to the card, tagged with its cycle, of at most the remaining amount. |
| PaymentProperties.PaymentCounts | backend/app/services/card_invoices.py:198-208 | A payment changes no cycle's charges and only its own cycle's paid amount, and only in windows that contain its date. |
| PaymentProperties.FirstCloseAfter | backend/app/services/card_invoices.py:183-196 | A payment leaves the opening balance in its cycle if and only if it falls in that cycle or a later one, or, on a card with no activity yet, in today's. |
| PaymentProperties.OtherCyclesUnchangedIff | backend/app/services/card_invoices.py:287-355 | Paying one cycle changes no other cycle's numbers if and only if the card has no opening balance or the payment's date leaves it in its cycle. |
| PaymentProperties.InvoiceAfterPayment | backend/app/services/card_invoices.py:287-355 | Under that condition the paid cycle keeps its total and owes less by exactly the amount, if the window sees the payment; every other invoice is unchanged. |
| PaymentProperties.UnseenPaymentRepeats | backend/app/services/card_invoices.py:287-355 | A payment dated outside the window that paying looks at is not seen: the same request is accepted again, so the remaining-amount guard does not bound it. |
| PaymentProperties.PaymentIsSeenIff | backend/app/services/card_invoices.py:287-355 | A posted payment that leaves the opening balance in place makes the invoice ask for that much less if and only if it is dated in the window that paying looks at. |
| PaymentProperties.OldPaymentIsTakenTwice | backend/app/services/card_invoices.py:287-355 | Concretely: a purchase of 500 is paid twice by the same request dated in January, 1000 in all. |
| PaymentProperties.EarlyPaymentMovesTheOpening | backend/app/services/card_invoices.py:183-196 | Concretely: a payment of the June cycle dated in January takes the opening balance out of the June invoice and puts it into the January one, which it does not pay. |
| PaymentProperties.DefaultRequestOverpays | backend/app/services/card_invoices.py:287-355 | Nor is the date of the new payment enough: on a ledger that holds such an unseen payment, the plain request of today pays a total of 500 up to 1000. |
| PaymentProperties.NeverShownNegative | backend/app/services/card_invoices.py:287-355 | No sequence of calls made on one day that leave the opening balance in place takes an amount shown as remaining below zero, and totals never move (over days it can: PaymentRuns.TwoDaysOverpay). |
| PaymentProperties.OverpaymentIff | backend/app/services/card_invoices.py:287-355 | Over the whole ledger, for any request at all: whatever amount is asked for, an accepted payment keeps the cycle from being paid more than its total if and only if its earlier payments that paying does not see come to no more than what the request's date adds to the total by moving the opening balance. |
| PaymentProperties.NoOverpaymentIff | backend/app/services/card_invoices.py:287-355 | For a request that leaves the opening balance in place: if and only if all the cycle's earlier payments are dated in the window that paying looks at. |
| PaymentProperties.SeenAfterIff | backend/app/services/card_invoices.py:287-355 | That every payment of every cycle is dated in the window of that day is kept, for that day, by exactly the calls dated in the window of their cycle. |
| PaymentProperties.NeverOverpaidInADay | backend/app/services/card_invoices.py:287-355 | From such a ledger, no sequence of calls of that day dated in the window of their cycle and leaving the opening balance in place takes what is paid to any cycle above its total. |
| PaymentRuns.StaysSeenIff | backend/app/services/card_invoices.py:311-315 | Exactly which dates stay in every later window of a cycle, as that window moves with the days: from two cycles before its own (three if every month closes on its last day) to the end of the narrowest window still to come. |
| PaymentRuns.TimelyStaysSeen | backend/app/services/card_invoices.py:311-315 | A date from the cycle's start up to the day of the call stays in sight for ever. |
| PaymentRuns.SteadyAfterIff | backend/app/services/card_invoices.py:287-355 | That every payment stays in sight from now on is kept by exactly the calls whose date stays in sight. |
| PaymentRuns.NeverOverpaid | backend/app/services/card_invoices.py:287-355 | No sequence of calls on any days takes what is paid to a cycle, over the whole ledger, above its total, nor shows it below zero, if each call sees what was paid to its cycle before it, leaves the opening balance in place and finds a total that has not dropped. |
| PaymentRuns.TotalIgnoresDay | backend/app/services/card_invoices.py:183-237 | The passing of days leaves a cycle's total alone once it is over, or if no rule posts to the card. |
| PaymentRuns.NeverOverpaidOverDays | backend/app/services/card_invoices.py:287-355 | So calls on days that do not go back, each dated where it stays in sight, never overpay a cycle that is over or has nothing projected. |
| PaymentRuns.TwoDaysOverpay | backend/app/services/card_invoices.py:287-355 | Being dated in the window of one's own day is not enough: two calls, six days apart, pay 1000 for a purchase of 500, and the invoice comes to show -500. |
| PaymentProperties.OverdueKeepsFirst | backend/app/services/card_invoice_posting.py:38-70 | Paying an overdue cycle today never moves the opening balance, so auto-pay meets the condition above by itself. |
| PaymentProperties.AutoPaymentSettles | backend/app/services/card_invoice_posting.py:38-70 | An automatic payment brings its cycle to zero, would be refused a second time, and changes nothing the pass sees of other cycles. |
| PaymentProperties.AutoPayTwice | backend/app/services/card_invoice_posting.py:38-70 | A second auto-pay pass on the same day posts nothing, whether the first completed or stopped at a refusal. |
| BalanceTrend.AccountBalanceTrend | backend/app/services/analytics.py:214-272 | One point per month and account; for every gap-free ascending list of months each point is account_balances with as_of at that month's end. |
| BalanceTrend.RunningIsSum | backend/app/services/analytics.py:240-272 | The running balance after a month is the opening balance plus all legs dated before the next month. |
| BalanceTrend.RunningIsBalance | backend/app/services/analytics.py:240-272 | The fast running form equals the simple form. |
| Backups.ValueRoundTrip | backend/app/services/backups.py:137-157 | A stored value of the column's type, written and read back, is the same value. |
| Backups.ExportTable | backend/app/services/backups.py:187-201 | A table is exported whole: every row once, in order of id, every column. |
| Backups.ExportBackup | backend/app/services/backups.py:187-210 | The payload is one the importer accepts, and read back it gives every table's rows and the preferences. |
| BackupRestore.MakeIdMap | backend/app/services/backups.py:403-413 | Builds the map from archived to new ids, and refuses exactly when an id is malformed or repeated. |
| BackupRestore.RestoreRow | backend/app/services/backups.py:437-457 | A row is rebuilt column by column, and refused exactly when a column cannot be; which cells those are, and what the others become, is what CellIsTold says. |
| RestoreFidelity.CellIsTold | backend/app/services/backups.py:145-157 | A cell of the archive becomes a value if and only if it stands for it: null only for null, any other value in its column's notation, and a reference only the new id of the archive's own row that carries the old one. |
| BackupRestore.RestoreTable | backend/app/services/backups.py:434-459 | A table is rebuilt under its new ids, and refused exactly when one of its rows is. |
| BackupRestore.RegistryIsInOrder | backend/app/services/backups.py:67-89 | Wherever the application has a foreign key between two tables, the backup registry lists its target no later. |
| BackupRestore.EmptiedIsClosed | backend/app/services/backups.py:427-428 | Emptying the tables from the last back strands no reference at any statement. |
| BackupRestore.RestoredIsClosed | backend/app/services/backups.py:434-459 | After the insert of each table, whatever the archive, no reference dangles. |
| BackupRestore.RecolouredIsClosed | backend/app/services/backups.py:461-466 | The final update of category colours leaves no dangling reference. |
| BackupRestore.UserData.Replace | backend/app/services/backups.py:416-466 | The replacement ends with the archive's rows under new ids, referentially closed, and the archive's preferences; it fails exactly when an id, value or reference is bad or the database refuses a table or the preferences. |
| BackupRestore.UserData.PreviewBackup | backend/app/services/backups.py:473-493 | For any payload the preview changes nothing and gives the counts, or the refusal, that a restore with the same new ids at the same time would (for other ids and times: BackupPreview.PreviewForetells). |
| BackupRestore.UserData.RestoreBackup | backend/app/services/backups.py:496-507 | For any payload at all the data ends referentially closed: either wholly replaced by what ArchiveIsRestored describes, or exactly as it was. |
| RestoreFidelity.ArchiveIsRestored | backend/app/services/backups.py:416-466 | Whatever archive is accepted, the restored tables hold one row for each of its rows, under the id drawn for it, and every cell stands for its value; a category with a group wears that group's colour and the time of the restore. |
| RestoreFidelity.UnreadableIsRefused | backend/app/services/backups.py:403-455 | An archive with a repeated or malformed id, a malformed value, or a reference to a row it does not hold is refused; nothing is dropped or set to null instead. |
| RestoreFidelity.AcceptedIff | backend/app/services/backups.py:349-466 | Where the database has no objection an archive is accepted if and only if it is well formed, its ids are distinct and every cell can be read. |
| RestoreFidelity.AcceptedShape | backend/app/services/backups.py:349-400 | An accepted archive holds exactly the tables and preferences that the application knows, each table in its present version and with exactly its columns. |
| BackupPreview.DataRedrawn | backend/app/services/backups.py:403-459 | Under two sets of new ids the same archive is well formed or not, and the two datasets it makes are isomorphic. |
| BackupPreview.PreviewForetells | backend/app/services/backups.py:473-507 | Unless the database's checks depend on ids or modification times, an archive is accepted under every draw of new ids and at every time, or never: what the preview answers, the restore will. |
| BackupRoundTrip.RowComesBack | backend/app/services/backups.py:187-201 | An exported row reads back as the row with its id and references renamed and every other column kept. |
| BackupRoundTrip.DataComesBack | backend/app/services/backups.py:403-459 | The tables rebuilt from an export are isomorphic to the exported ones: one bijection of ids per table that carries every foreign key along. |
| BackupRoundTrip.ColoursCommute | backend/app/services/backups.py:461-466 | Giving categories their group's colour commutes with renaming ids. |
| BackupRoundTrip.BackupRoundTrip | backend/app/services/backups.py:187-466 | Restoring an exported archive gives the exported data up to that bijection, save that each category takes its group's colour and the restore time as its modification time; it succeeds whenever the database's checks accept the preferences and the recoloured data and do not depend on ids. |
| BackupRoundTrip.UniqueLinksIgnoreIds | backend/app/models/goal.py:25-30 | A UNIQUE constraint on a foreign key says the same of two datasets that are one another's renaming: such checks do not depend on ids. |
| BackupRoundTrip.RoundTripIsExactIff | backend/app/services/backups.py:187-466 | The round trip is a plain isomorphism, under any bijections of ids whatever, if and only if every category had its group's colour already and was modified at the very time of the restore. |
| BackupRoundTrip.TimeIsLost | backend/app/services/backups.py:460-465 | So it is not on one group and one category of the same colour that was modified before. |
| BackupRoundTrip.RestoredCounts | backend/app/services/backups.py:433-466 | The counts reported are the sizes of the exported tables. |
| StreamGates.OffTopicGate.Feed | backend/app/agents/loop.py:88-101 | What has been passed on and what is held are always the text seen, and text is passed on only once it cannot be the marker. |
| StreamGates.OffTopicGate.Finish | backend/app/agents/loop.py:103-106 | It is a refusal exactly when the whole text is the marker; otherwise all of it has been given. |
| StreamGates.StripsToMarker | backend/app/agents/loop.py:103-106 | For a buffer the gate can hold, stripping white space changes nothing about the verdict. |
| StreamGates.CutText | backend/app/agents/loop.py:114-133 | The cut finds the first run of three back-ticks or tildes across the chunk boundary, or holds back at most the two characters that could begin one. |
| StreamGates.CodeFenceGate.Feed | backend/app/agents/loop.py:114-133 | After any chunks, what has been given is the text before the first fence, less at most the held tail. |
| StreamGates.CodeFenceGate.Finish | backend/app/agents/loop.py:135-136 | In the end exactly the text before the first fence has been given, all of it if there is none. |
| StreamGates.KeptIsUnique | backend/app/agents/loop.py:109-136 | That text is determined by the whole text, so the result cannot depend on chunking. |
| StreamGates.FilterStream | backend/app/agents/loop.py:219-257 | For every way of cutting a text into chunks: the kept text is the text before the first fence, blocked says whether there is one, the refusal verdict holds exactly when the kept text is the marker, and the deltas concatenate to it otherwise. |
| StreamGates.BreakOff | backend/app/agents/loop.py:219-232 | When the provider fails on the way, what has been shown is a prefix of the kept text of what came: all but at most two characters of it, and nothing of it while it may still be the marker. |
| TurnLoop.RehydrateTurns | backend/app/agents/loop.py:375-416 | The index loop computes the turns of the stored messages. |
| TurnLoop.RehydrateAppend | backend/app/agents/loop.py:375-416 | Turns of two stretches of messages are the turns of each, when the second does not begin with a tool result. |
| TurnLoop.ExchangeAppends | backend/app/agents/loop.py:258-366 | Storing an assistant message and the result of its first call adds exactly the two turns the loop adds in memory. |
| TurnLoop.MessageAppends | backend/app/agents/loop.py:375-416 | A user message adds its turn, an assistant message without calls adds its text, and a stored refusal adds nothing. |
| TurnLoop.ResultsJoin | backend/app/agents/loop.py:391-407 | A second result right after the first joins it in one turn. |
| TurnLoop.StreamText | backend/app/agents/loop.py:219-257 | The deltas of one response show its kept text (for a refusal without calls, only what had left the filter before the verdict), and a refusal event comes exactly for the marker or a code fence. |
| TurnLoop.HandleCall | backend/app/agents/loop.py:267-366 | Only the first call is handled: the result or its absence is that of ResultAnswers, the events say so, and a write tool is never run but parks the conversation. |
| TurnLoop.RunTurn | backend/app/agents/loop.py:203-372 | Where no response is refused the user is shown exactly the kept texts, in order; a refusal is shown if and only if some response is one; the last event is the row's status or an error. At every iteration a reload of the stored messages gives the turns handed to the provider. The loop goes on, up to the fixed number of times, exactly as long as the first call gives a result; only read tools are run; awaiting means a write call is parked. |
| TurnLoop.Iterate | backend/app/agents/loop.py:213-366 | One iteration sends the response's text, then its failure, the end of the turn or what became of the first call, and leaves messages whose reload is the turns it goes on with. |
| TurnLoop.TurnShows | backend/app/agents/loop.py:203-372 | What the events of all iterations amount to: text shown, refusals, the last event. |
| TurnLoop.TurnsGrow | backend/app/agents/loop.py:258-366 | Each iteration hands the provider the turns of the one before, its kept text with all its calls, and the result of the first call. |
| TurnLoop.StoredIsRebuilt | backend/app/agents/loop.py:234-265 | A reload tells the provider the kept text and calls of each response, and nothing of a refusal without calls or of a failure. |
| TurnLoop.ResultAnswers | backend/app/agents/loop.py:267-366 | A result carries its call's id and name, is an error for an unknown tool, a failing preview or a failing read, and is missing if and only if a write tool's call waits for the user. |
| TurnLoop.OnlyReadsRun | backend/app/agents/loop.py:290-345 | No write tool is run by the loop. |
| AttemptLimiter.UserRow.ReserveAttempt | backend/app/services/auth.py:95-123 | The conditional update counts one guess unless locked, gives its number, and locks when the number is over the limit. |
| AttemptLimiter.CounterWithinLimit | backend/app/services/auth.py:95-172 | Under every interleaving of requests the committed counter and every number handed out are within the limit. |
| AttemptLimiter.CounterCountsGrants | backend/app/services/auth.py:95-172 | Between two resets the counter counts the grants. |
| AttemptLimiter.FreshAfterSuccess | backend/app/services/auth.py:137-172 | After a success the counter counts only the grants since, and the next guess is number one. |
| AttemptLimiter.GrantsAreDistinct | backend/app/services/auth.py:95-172 | Two grants with no reset between them carry distinct, increasing numbers. |
| AttemptLimiter.LockHolds | backend/app/services/auth.py:126-134 | A lock taken with no success after it lasts the full period from when its clock was read. |
| AttemptLimiter.GrantsSpanTheLockout | backend/app/services/auth.py:95-172 | Any max_attempts + 1 consecutive grants with no success between them span at least one lockout, less the longest time between a request's clock read and its update. |
| AttemptLimiter.DelayIsLost | backend/app/services/auth.py:95-134 | The loss is real: for every limit and every delay up to the lockout there is a run of interleaved guesses that loses exactly the whole delay. |
| AttemptLimiter.FullLockoutIff | backend/app/services/auth.py:95-172 | So max_attempts + 1 grants always span a full lockout if and only if no time passes between a clock read and its update. |
| AttemptLimiter.VerifyWithLockout | backend/app/services/auth.py:146-172 | One whole password check is the same steps run together: locked, wrong (locking at the limit) or right (clearing). |
| AttemptLimiter.UserRow.ClaimTotpStep | backend/app/services/auth.py:399-413 | On a row that has seen any history of claims, the conditional update decides as the next claim of that history, and leaves the row as that longer history does. |
| AttemptLimiter.StepAcceptedIff | backend/app/services/auth.py:399-413 | Over any sequence of claims one wins exactly when its step is newer than every step claimed before it. |
| AttemptLimiter.StepsAcceptedOnce | backend/app/services/auth.py:399-413 | So the accepted time steps strictly increase, and no code works twice. |
| AttemptLimiter.UserRow.ClaimBackupCode | backend/app/services/auth.py:416-428 | On a row that has seen any history of claims, a claim wins exactly when no earlier one was for that code. |
| AttemptLimiter.CodeWinsOnce | backend/app/services/auth.py:416-428 | Over any sequence of racing claims a backup code wins exactly once if it is claimed at all. |
| ConfirmClaim.Conversation.ClaimPending | backend/app/services/agent_chat.py:297-313 | The compare-and-set wins exactly when that call is pending, and marks it taken. |
| ConfirmClaim.Conversation.ReleaseClaim | backend/app/services/agent_chat.py:316-329 | A release puts the call back exactly when the row still shows a claim. |
| ConfirmClaim.StepKeepsInvariant | backend/app/services/agent_chat.py:95-105 | Every step of every request (message guard, claim, release, completion, parking, finishing) keeps the claim invariant. |
| ConfirmClaim.CallsSettleOnce | backend/app/services/agent_chat.py:332-449 | In every interleaving: awaiting if and only if a call is pending; no two requests hold the same call; a call is completed or rejected at most once, never both. |
| ConfirmClaim.OneClaimAtATime | backend/app/services/agent_chat.py:95-449 | While no message starts a turn during another turn, at most one request in the conversation holds a claim and no turn runs beside it. |
| ConfirmClaim.OverlappingTurnsShareTheClaim | backend/app/services/agent_chat.py:95-105 | Without that condition it is false: two messages to an idle conversation start two turns, and two requests come to hold a claim each. |
| ConfirmClaim.TwoTurnsTwoHolders | backend/app/services/agent_chat.py:95-449 | From every state with two turns under way, six steps bring two requests to hold a claim each. |
| ConfirmClaim.OneHolderIff | backend/app/services/agent_chat.py:95-449 | At no point of a run can two requests come to hold a claim at once, by any continuation that starts no further overlapping turn, if and only if the run has started none. |
| ConfirmClaim.StreamConfirm | backend/app/services/agent_chat.py:332-449 | One confirmation by itself, with the turn that follows it, is the interleaved steps run together: refused, put back, or settled and then idle or waiting for the next call. |
| Positions.Fold | backend/app/services/investment_positions.py:26-69 | The loop computes the fold, and fails exactly where a row cannot be applied. |
| Positions.FoldAccounts | backend/app/services/investment_positions.py:26-69 | For every ledger that folds: quantity is what is held, book value is total buy outlay less total sell proceeds plus realized gain, cost and yield balance are never negative and are zero when nothing is held. |
| Positions.SellKeepsAverages | backend/app/services/investment_positions.py:40-56 | A sell leaves the cost and the yield of a unit as they were, and earns its proceeds less what the units it takes away had cost. |
| Positions.TalliesAreSums | backend/app/services/investment_positions.py:26-69 | Dividends and fees are the sums of their rows; until something is sold nothing is earned, the cost is the total outlay and all yields stay. |
| Positions.FoldsIff | backend/app/services/investment_positions.py:26-69 | A ledger folds if and only if no prefix oversells and every yield has a holding. |
| Positions.InsertedBuyFolds | backend/app/services/investment_positions.py:132-151 | Inserting a buy anywhere keeps a ledger folding. |
| Positions.RemovedSellFolds | backend/app/services/investment_positions.py:132-151 | Removing a sell anywhere keeps a ledger folding. |
| SchemaFlattener.WalkIsFlat | backend/app/agents/entities.py:448-475 | Inlining ends on every schema, mutually recursive definitions included, and leaves no $ref or $defs in a schema position. |
| SchemaFlattener.ReferenceIsInlined | backend/app/agents/entities.py:448-461 | A reference becomes its definition whatever stands beside it, an empty schema if there is none, and a plain object if it leads back to itself. |
| SchemaFlattener.NullableCollapses | backend/app/agents/entities.py:462-475 | A union of one real option and nulls becomes that option, with the keys beside the union winning over its own. |
| SchemaFlattener.CollapsedIsFlat | backend/app/agents/entities.py:462-475 | Collapsing an optional keeps it so. |
| SchemaFlattener.PropertyNamesKept | backend/app/agents/entities.py:448-475 | Property names are kept, even when one is spelled like a dropped keyword. |
| SchemaFlattener.FlatIsFixed | backend/app/agents/entities.py:448-475 | A flat schema is left as it is. |
| SchemaFlattener.FlattenIsFlat | backend/app/agents/entities.py:439-477 | The whole operation is flat and idempotent. |

## Left out

- HTTP, SSE framing, heartbeats, provider adapters, OAuth, e-mail, quotes and rates: network plumbing.
- Argon2, TOTP digits, Fernet and HMAC: whether a secret checks is a parameter; backup envelopes, encryption, format numbers and the size cap are not modelled.
- SQLAlchemy and PostgreSQL mechanics: statements are atomic, savepoints restore the rows and the journal, a failed constraint is one outcome; the order in which one statement's triggers fire is left open.
- The files of transactions, loans, investments, reconciliations, recurring posting and ownership are not part of this model; `assert_not_reconciled` is an abstract check that may refuse a revert.
- ChangeJournal.Undo: exactness needs what the journal is for: the entries are the call's own consecutive writes (`CallIsRecorded`) on a referentially closed state, references between rows stay with one owner, a link of a journaled table that ON DELETE may set to null is to a journaled table, and ids are not reused (`backend/app/models/base.py:17`). `list_recent` and the tagging of new transactions are not modelled.
- UndoExactness.UndoIsExact: the state when the undo begins is arbitrary except that rows have their table's columns and references do not cross owners.
- CascadeDelete.CascadeDeleteAccounts: assumes that no row refers to another user's row; the ownership checks that see to it are in files that are not part of this model. Constraints other than the auto-pay CHECK are assumed to survive the loss of rows and of nullable links: those that read `payment_account_id`, `loan_id` or `recurring_rule_id` all hold when it is null (`backend/app/models/account.py:54-69`, `backend/app/models/transaction.py:61-69`), and a UNIQUE constraint cannot be broken by a loss.
- InvoiceProperties.InvoicesAgreeWithLedger: existing-position buys credit the wallet's investment account, so none is on the card.
- InvoiceForecast.TotalSurvivesPosting: for the postings that the forecast is made for, those of income and expense rules at the rule's own converted amount. The source's poster converts at the rate of the day (`backend/app/services/recurring_posting.py:87-99`), skips dates it has posted, and also posts a rule's transfers out of the card, which no forecast shows; none of that is modelled. Without any earlier use of the card the opening balance may move with the first posting.
- CardPayments.Book.PayInvoice: whether `create_transaction` takes a transfer is a fixed predicate on the transfer, so a refusal that depends on what else was posted meanwhile is not modelled; the fields of the request beyond account, date and amount are dropped.
- CardPayments.Book.PostDueInvoicePayments: `post_all_due_invoice_payments`, which runs the pass for every card and counts failures, is left out.
- PaymentRuns.NeverOverpaid: for calls that see what was paid before them, because it is false otherwise (`OverpaymentIff`, `TwoDaysOverpay`); nothing else is posted between the calls, and a total that drops meanwhile (a projected charge that is not charged) is excluded.
- PaymentProperties.NeverShownNegative: for the calls of one day, because over days it is false (`TwoDaysOverpay`).
- AttemptLimiter.GrantsSpanTheLockout: one lockout less the clock delay, because the full lockout is false (`FullLockoutIff`).
- ConfirmClaim.OneClaimAtATime: only while turns do not overlap, because it is false otherwise (`OneHolderIff`). Tool-call ids are unique in the conversation and never the reserved word for a claim. Running the approved tool, and the turn that follows, are single steps.
- Recurrence.ProjectionIsExact: at the cap of 2000 occurrences the source stops, and so does the model; then only the order and the joining of ranges hold.
- BackupRestore.UserData.Replace: assumes that the flush after each table checks the table's references when all its rows are in; the source adds the rows one by one in order of their old ids, so a reference from an account to a later account could be refused by a flush that checks row by row. The database's other checks are judged once per table. Ids come from a sequence of draws that never repeats.
- BackupRestore.UserData.RestoreBackup: a decimal in a malformed notation raises an arithmetic error that the source's handlers do not name, so its caller gets a server error where the model says incompatible; the stored data are unchanged either way. Warnings and the migration of version-1 archives are left out.
- BackupRoundTrip.BackupRoundTrip: scalars are assumed to read back as written (`Faithful`), whatever their text form.
- TurnLoop.RunTurn: messages are kept in order of position; attachments are part of the user's text; the tools and the provider are functions of the call. Daily limits and validation turns are left out.
- Positions.FoldAccounts: amounts are exact reals; the source divides with 28 digits.
- SchemaFlattener.WalkIsFlat: input on which the source raises has no result; a `$ref` that is not text, and the order of keys, are not modelled.
- Calendar.DaysAreConsecutive: years are unbounded, while the source's dates end at year 9999.
- `real_balance_contributions`, budgets, category spending, goals, memories, credentials, settings and the setup wizard: single-branch guards or sums that would only add easy members.
