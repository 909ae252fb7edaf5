# Cash-flow bookkeeping: a Dafny model

This project models the core of a small bookkeeping application for a transport company (Logística y Transporte
Jouve). Money is booked month by month: each month holds transactions (income, expense, internal transfer,
adjustment), and each transaction has one amount line per account. The model covers:

- the report engine in `app/actions/cash-flow.ts`: the annual cash flow (opening balances, income by income
  category with an "Sin clasificar" row, expenses by category in a fixed priority order, the result, and closing
  balances); the monthly expense detail by subcategory and payment method; the income statement on a cash or
  accrual basis; and the legacy category-by-month summary;
- the summary table that renders the legacy summary (`components/cash-flow-summary-table.tsx`);
- the Argentine currency format (`lib/format.ts`);
- the quick-add sheet (`components/add-transaction-sheet.tsx`), the next-month rule and the month route of the
  sidebar (`components/sidebar-months-dropdown.tsx`), and the new-month dialog (`components/new-month-modal.tsx`);
- the cell edited in place (`components/editable-cell.tsx`);
- the month table (`components/month-transactions-table.tsx`): draft rows, pending edits merged into saved rows,
  sorting and filters, the save checks and the payloads they produce, type changes, amount inputs and the
  internal-transfer dialog.

Amounts are whole numbers of cents. Database reads are inputs, in the order the queries ask for. The report
functions are specified by ghost predicates: `OpeningSection`, `IncomeSection`, `ExpenseSection`,
`ResultSection`, `ClosingSection` and `RollsForward` for the annual report, and `StatementShape` for the income
statement. Loops of the source are methods proved equal to a specification function. React state becomes a class
whose methods state the new value of every field they change. Each class delegates the computation to a
heap-free method, which keeps the proofs small.

Modules, one per file: `Ledger` (entities), `Text`, `Numbers` (JavaScript `parseFloat`, `Number` and `String`
on decimal numbers), `OrderedMaps` (JavaScript object and `Map` key order), `StableSort` (`Array.prototype.sort`,
which is stable), `Periods`, `CategoryOrder`, `Grid`, `AnnualCashFlow`, `MonthDetail`, `IncomeStatement`,
`LegacySummary`, `SummaryTable`, `Format`, `QuickAdd`, `QuickAddState`, `MonthRollover`, `NewMonth`,
`EditableCells`, `TableRows`, `TableOrder`, `TableSave` and `TableState`.

## Model

| member | source | states |
|---|---|---|
| Periods.MonthsInRange | app/actions/cash-flow.ts:43-46 | exactly the months whose year*100+month lies between the two bounds (both inclusive) are kept, and no others |
| Periods.MonthsInRangeChronological | app/actions/cash-flow.ts:43-46 | months fetched in ascending order stay chronological after the range filter |
| CategoryOrder.Rank | app/actions/cash-flow.ts:203-207 | a listed category's key is its position in CATEGORY_ORDER; any other category's key is 999 |
| CategoryOrder.SortCategoriesSpec | app/actions/cash-flow.ts:196-207 | the sorted categories are a permutation of the input; listed ones come first in priority order; unlisted ones keep their incoming (by-name) order |
| Grid.Columns | app/actions/cash-flow.ts:117-122 | one cell per month of the range, in month order, carrying that month's id, label and amount |
| Grid.RowCells | app/actions/cash-flow.ts:123-128 | a report row holds exactly the cells it was built from, and its total is the sum of its cells |
| Grid.KeyedRows | app/actions/cash-flow.ts:123-128 | one row per heading (account, category or income category), in order, keyed and named by it, holding that heading's cell for each month |
| Grid.TotalsLineSpec | app/actions/cash-flow.ts:131-138 | each month of a totals line is the sum of that month's cell over the rows, and the line adds up to the sum of the rows' totals |
| Grid.TotalColumnsSum | app/actions/cash-flow.ts:131-138 | summing a totals line over the months gives the sum of the row totals |
| Grid.ResultSpec | app/actions/cash-flow.ts:239-243 | the result is income minus expense in every month, and its sum is total income minus total expense |
| AnnualCashFlow.OpeningAmount | app/actions/cash-flow.ts:118-121 | the amount of the first opening balance of that account and month, or 0 when there is none |
| AnnualCashFlow.OpeningSpec | app/actions/cash-flow.ts:116-138 | one opening row per account, holding its opening balances, and the totals line of those rows |
| AnnualCashFlow.IncomeSpec | app/actions/cash-flow.ts:141-190 | one row per income category holding the signed net of its income; the unclassified row is added exactly when its cells do not sum to 0; then the totals line |
| AnnualCashFlow.ExpenseAmount | app/actions/cash-flow.ts:210-219 | an expense cell is never negative |
| AnnualCashFlow.ExpenseSpec | app/actions/cash-flow.ts:193-237 | one row per category in priority order, each cell the sum of the absolute nets of its expenses; every cell and every total is non-negative |
| AnnualCashFlow.ExpenseRowsNonNegative | app/actions/cash-flow.ts:209-227 | no expense row has a negative cell |
| AnnualCashFlow.ClosingSpec | app/actions/cash-flow.ts:246-275 | one closing row per account, each cell the opening balance plus that month's first line on the account of every transaction; then the totals line |
| AnnualCashFlow.ClosingIgnoresOtherMonths | app/actions/cash-flow.ts:246-258 | transactions of other months do not change a month's closing balance |
| AnnualCashFlow.ClosingRollForward | app/actions/cash-flow.ts:246-275 | when every transaction of the month books at most one line per account, all on listed accounts, closing total = opening total + the month's net |
| AnnualCashFlow.RollForwardSpec | app/actions/cash-flow.ts:246-275 | the roll-forward holds in every month of the report |
| AnnualCashFlow.GetCashFlowAnnual | app/actions/cash-flow.ts:83-290 | the report's months are the range, and its opening, income, expense, result and closing sections satisfy the properties above and roll forward |
| MonthDetail.Spent | app/actions/cash-flow.ts:347-360 | what transactions paid with one method (the sum of their absolute nets) is never negative |
| MonthDetail.SubRowOf | app/actions/cash-flow.ts:347-367 | a subcategory row's bank/cash and credit-card amounts are non-negative and its total is their sum |
| MonthDetail.SubcategoryRows | app/actions/cash-flow.ts:345-368 | one row per subcategory of the category, in order, each over that subcategory's transactions |
| MonthDetail.CategoryDetailOf | app/actions/cash-flow.ts:338-414 | a category has a detail exactly when it has an expense this month; the detail carries its id and name, and its total is bank/cash plus credit card |
| MonthDetail.BuildCategoryDetail | app/actions/cash-flow.ts:338-414 | the imperative build, with the conditional push of the unclassified row, equals the specification |
| MonthDetail.Partition | app/actions/cash-flow.ts:371-399 | with distinct non-empty subcategory ids, what the subcategories spent plus what the unclassified transactions spent is what all of the category's transactions spent, for either payment method |
| MonthDetail.DetailRowsSpent | app/actions/cash-flow.ts:345-401 | the bank/cash column of the rows sums to what the category's transactions paid by bank/cash, and likewise for credit card |
| MonthDetail.CategoryTotals | app/actions/cash-flow.ts:400-413 | a category's two totals are what its expenses paid by each method |
| MonthDetail.SpentSplit | app/actions/cash-flow.ts:347-360 | when every expense is paid by bank/cash or credit card, the two amounts add up to the sum of absolute nets |
| MonthDetail.CategoryTotalIsAbsNet | app/actions/cash-flow.ts:338-413 | a category's total is the sum of the absolute nets of its expenses |
| MonthDetail.DetailNonNegative | app/actions/cash-flow.ts:345-413 | no amount in a category detail is negative |
| MonthDetail.GetCashFlowMonthDetail | app/actions/cash-flow.ts:295-424 | no report (null) exactly when the month is missing; otherwise the details of the sorted categories that have expenses, and grand totals that add them up |
| MonthDetail.CollectDetails | app/actions/cash-flow.ts:335-415 | the categories are visited in order, each one with expenses contributing its detail once, and the running grand totals equal the sums of the bank/cash and credit-card totals of the details kept |
| IncomeStatement.EffectiveMonthId | app/actions/cash-flow.ts:456-458 | on a cash basis the booking month; on an accrual basis the accrual month when one is set (non-empty), and the booking month otherwise |
| IncomeStatement.ExpenseCell | app/actions/cash-flow.ts:510-521 | an expense cell of the statement is never negative |
| IncomeStatement.NonBusinessIgnored | app/actions/cash-flow.ts:461-463 | when non-business transactions are excluded, adding some changes nothing in scope |
| IncomeStatement.IncomeSectionSpec | app/actions/cash-flow.ts:466-492 | one income row per income category, by effective month, and a totals row whose cells and total add up the rows |
| IncomeStatement.ExpenseSectionSpec | app/actions/cash-flow.ts:495-536 | one expense row per category in priority order, all cells non-negative, and a totals row that adds them up |
| IncomeStatement.Assemble | app/actions/cash-flow.ts:465-546 | the statement covers the given months with one row per income category and one per expense category |
| IncomeStatement.TotalRowSpec | app/actions/cash-flow.ts:481-492 | a totals row's cells are the month sums of the rows, and its total is both the sum of the row totals and the sum of its cells |
| IncomeStatement.StatementSpec | app/actions/cash-flow.ts:465-546 | both sections as above, and the result is income minus expense per month, its total income total minus expense total |
| IncomeStatement.GetIncomeStatement | app/actions/cash-flow.ts:430-556 | the statement covers the months in range, with one row per income category and one per expense category |
| IncomeStatement.GetIncomeStatementSpec | app/actions/cash-flow.ts:430-556 | the returned statement's income and expense cells, totals lines and result are those of the transactions booked in the range's months (business ones only when asked), by effective month |
| IncomeStatement.CashBasisIgnoresAccrual | app/actions/cash-flow.ts:456-458 | on a cash basis the accrual months of the transactions do not change the statement |
| IncomeStatement.NoAccrualMonthsSameBasis | app/actions/cash-flow.ts:456-458 | when no transaction names an accrual month, the accrual-basis statement equals the cash-basis one |
| IncomeStatement.ClearedAccrualIsCash | app/actions/cash-flow.ts:456-458 | with every accrual month cleared, the two bases give the same statement |
| IncomeStatement.AccrualShiftKeepsTotals | app/actions/cash-flow.ts:455-546 | over distinct range months, with every accrual month in scope inside the range, every row total and the income, expense and result totals are the same on both bases: the accrual month only moves an amount between months |
| IncomeStatement.AssembleShiftKeepsTotals | app/actions/cash-flow.ts:465-546 | the same, for a statement over transactions whose months lie in the range on either basis |
| IncomeStatement.IncomeRowTotal | app/actions/cash-flow.ts:466-478 | an income row's total is the net income of its category in scope, whatever month each transaction counts in |
| IncomeStatement.ExpenseRowTotal | app/actions/cash-flow.ts:495-521 | an expense row's total is the absolute-net expense of its category in scope, whatever month each transaction counts in |
| IncomeStatement.SpreadSumSpec | app/actions/cash-flow.ts:468-478 | spreading transactions over distinct months by one key sums to the total of the kept ones, each counted once |
| IncomeStatement.UncategorisedIncomeIgnored | app/actions/cash-flow.ts:466-478 | income whose category is not listed does not appear anywhere in the statement (it has no unclassified row) |
| LegacySummary.GetCashFlowSummary | app/actions/cash-flow.ts:572-642 | null exactly when no month id is given; otherwise the months, the totals accumulated per category and month, and the categories with "Uncategorized" appended exactly when a total lacks a category |
| LegacySummary.AccumulateTotals | app/actions/cash-flow.ts:603-612 | the loop over the transactions builds the specified totals map |
| LegacySummary.AccumulateAt | app/actions/cash-flow.ts:603-612 | the total under a key is the net of the transactions with that key |
| LegacySummary.AccumulateKeys | app/actions/cash-flow.ts:603-612 | the totals map has a key exactly when some transaction has that key |
| LegacySummary.AccumulateSum | app/actions/cash-flow.ts:603-612 | the totals map adds up to the net of all transactions |
| LegacySummary.ReadTotals | app/actions/cash-flow.ts:614-622 | the forEach produces one total per key, in insertion order |
| LegacySummary.SplitKeyJoin | app/actions/cash-flow.ts:610-616 | splitting a key at "\|" gives back the category key and month id when neither contains "\|" |
| LegacySummary.TotalsAddUp | app/actions/cash-flow.ts:603-622 | the totals list adds up to the net of all fetched transactions |
| LegacySummary.UncategorizedIffMissing | app/actions/cash-flow.ts:624-635 | a null-category total exists exactly when some transaction has no category |
| LegacySummary.EntryMeaning | app/actions/cash-flow.ts:614-622 | each total is the net of the transactions with its category and month |
| LegacySummary.SameKey | app/actions/cash-flow.ts:609-610 | with ids free of "\|", two transactions share a key exactly when they share category and month |
| SummaryTable.SetZeros | components/cash-flow-summary-table.tsx:17-23 | the zero-filling loop builds the specified map |
| SummaryTable.ZeroedAt | components/cash-flow-summary-table.tsx:17-23 | every listed id starts at 0, and only listed ids are present |
| SummaryTable.AddTotals | components/cash-flow-summary-table.tsx:24-28 | the loop over the totals adds each into its month and its category |
| SummaryTable.BuildTotals | components/cash-flow-summary-table.tsx:17-28 | both maps equal their specification |
| SummaryTable.MonthTotalAt | components/cash-flow-summary-table.tsx:24-25 | a month's total is the sum of the totals for that month; every listed month is present |
| SummaryTable.CategoryTotalAt | components/cash-flow-summary-table.tsx:26-27 | a category's total is the sum of its totals (null category under "__uncategorized__"); every listed category is present |
| SummaryTable.GetTotalFirst | components/cash-flow-summary-table.tsx:30-37 | when some total matches category and month, the cell is the first matching total, whatever follows it |
| SummaryTable.GetTotalNone | components/cash-flow-summary-table.tsx:30-37 | when no total matches category and month, the cell is 0 |
| SummaryTable.GetTotalOfSummary | components/cash-flow-summary-table.tsx:30-37 | over a legacy summary, a cell is the net of the transactions of that category and month |
| SummaryTable.SortedCategoriesSpec | components/cash-flow-summary-table.tsx:39-45 | a permutation of the categories, ascending by category total, ties kept in incoming order |
| SummaryTable.GrandTotalIsSum | components/cash-flow-summary-table.tsx:47 | the grand total is the sum of all totals |
| Format.TwoDigits | lib/format.ts:4 | the cents are written with exactly two digits |
| Format.GroupSpec | lib/format.ts:5 | grouping inserts a dot every three digits from the right, and removing the dots gives back the digits |
| Format.FormatCurrencySpec | lib/format.ts:2-8 | sign, "$", the grouped whole part, a comma and two cent digits, which read back as the absolute value |
| Format.MinusIffNegative | lib/format.ts:6 | the text starts with "-" exactly when the value is negative |
| Format.NegateFormat | lib/format.ts:3-7 | a negative amount is written as "-" followed by its absolute value's text |
| QuickAdd.ParseAmountComma | components/add-transaction-sheet.tsx:32-35 | an amount written with a decimal comma reads back unchanged |
| QuickAdd.ParseAmountDot | components/add-transaction-sheet.tsx:32-35 | an amount written with a decimal point reads back unchanged |
| QuickAdd.Choose | components/add-transaction-sheet.tsx:67 | the chosen account when one is chosen, else the default account when it exists; never an empty id |
| QuickAdd.SingleLineSpec | components/add-transaction-sheet.tsx:66-73 | income, expense and adjustment give one line exactly when an account exists and the amount is positive (non-zero for adjustment); income is positive, expense negative, adjustment as typed |
| QuickAdd.TransferSpec | components/add-transaction-sheet.tsx:74-83 | a transfer gives two lines exactly when both accounts exist, differ and the amount is positive: minus from the source, plus to the target, summing to 0 |
| QuickAdd.TransferLines | components/add-transaction-sheet.tsx:74-83 | for amounts already read, the transfer branch gives two balanced lines exactly when both accounts exist, differ and the amount is positive |
| QuickAdd.NoZeroLines | components/add-transaction-sheet.tsx:64-90 | no line carries a zero amount |
| QuickAdd.Description | components/add-transaction-sheet.tsx:97 | the description sent is never empty |
| QuickAdd.DescriptionSpec | components/add-transaction-sheet.tsx:97 | the placeholder is sent exactly when the description is blank or trims to the placeholder itself |
| QuickAdd.BuildAmounts | components/add-transaction-sheet.tsx:64-88 | the branching on the type builds the specified lines |
| QuickAdd.Prepare | components/add-transaction-sheet.tsx:60-100 | the submit handler produces the specified request |
| QuickAdd.RequestSpec | components/add-transaction-sheet.tsx:60-100 | a request is sent exactly when accounts exist and some line is built; it carries the type, the lines, a non-empty description, the month and the next row order |
| QuickAddState.QuickAddSheet.constructor | components/add-transaction-sheet.tsx:48-56 | closed, dated today, income, everything else empty |
| QuickAddState.QuickAddSheet.Request | components/add-transaction-sheet.tsx:60-100 | submitting sends the request built from the current form |
| QuickAddState.QuickAddSheet.Saved | components/add-transaction-sheet.tsx:101-104 | after a save the sheet closes and the description and both amounts are cleared; date, type and accounts stay |
| MonthRollover.After | components/sidebar-months-dropdown.tsx:55-56 | the month after a valid month is a valid month and comes later |
| MonthRollover.AfterIsSuccessor | components/sidebar-months-dropdown.tsx:55-56 | no valid month lies strictly between a month and the one after it |
| MonthRollover.NextMonth | components/sidebar-months-dropdown.tsx:52-58 | none exactly when there is no month; otherwise a valid month after the first (newest) one |
| MonthRollover.NextMonthIsNew | components/sidebar-months-dropdown.tsx:52-58 | with months sorted newest first (app/actions/months.ts:11-12), the next month is later than, and differs from, every existing month |
| MonthRollover.CurrentMonthId | components/sidebar-months-dropdown.tsx:43-44 | an id exactly when the path is "/month/" (any case) followed by one or more hex digits or dashes; the id is that tail |
| MonthRollover.MonthRouteRoundTrip | components/sidebar-months-dropdown.tsx:43-44 | the route of any valid id reads back as that id |
| MonthRollover.CaseInsensitiveRoute | components/sidebar-months-dropdown.tsx:43-44 | "/month/" written in any letter case, followed by one or more id characters, reads back as that id: the match ignores case |
| NewMonth.MonthName | components/new-month-modal.tsx:14-17 | the Spanish name of months 1 to 12, "undefined" for any other index |
| NewMonth.LabelSpec | components/new-month-modal.tsx:27 | the label is the month name, a space and the last two digits of the year |
| NewMonth.InitialAmountsSpec | components/new-month-modal.tsx:34-42 | with distinct accounts, every loaded account starts at its previous balance |
| NewMonth.InitialTotal | components/new-month-modal.tsx:44-46 | the initial total is the sum of the previous balances |
| NewMonth.AmountOfNumber | components/new-month-modal.tsx:48-53 | a number typed as JavaScript writes it is stored unchanged |
| NewMonth.AmountOfBlank | components/new-month-modal.tsx:48-53 | an empty field or a lone minus stores 0 |
| NewMonth.BalancesList | components/new-month-modal.tsx:58-61 | one entry per balance, in order, with the edited amount or 0 |
| NewMonth.ConfirmUnedited | components/new-month-modal.tsx:56-61 | confirming without editing sends every previous balance unchanged |
| NewMonth.NewMonthForm.constructor | components/new-month-modal.tsx:31-32 | no amount edited yet |
| NewMonth.NewMonthForm.LoadBalances | components/new-month-modal.tsx:34-42 | loading balances replaces the amounts with the initial ones; nothing happens before they arrive |
| NewMonth.NewMonthForm.ChangeAmount | components/new-month-modal.tsx:48-54 | only the changed account's amount changes, to the parsed value, and the total moves by the difference |
| NewMonth.NewMonthForm.Confirm | components/new-month-modal.tsx:56-61 | nothing is sent before the balances load; afterwards the list of edited amounts |
| EditableCells.TextSaveStable | components/editable-cell.tsx:39-48 | a text cell always saves, and saving the saved text again gives the same text |
| EditableCells.NumberRoundTrip | components/editable-cell.tsx:40-43 | a number cell opened on any amount (written with a decimal comma) and saved unchanged saves that amount |
| EditableCells.BlankSavesZero | components/editable-cell.tsx:44-46 | a blank field or a lone minus saves 0 |
| EditableCells.NonNumberNotSaved | components/editable-cell.tsx:40-46 | a field whose trimmed text starts with anything but a digit, a sign, a dot or a comma is neither a number nor blank nor a lone minus, and is not saved |
| EditableCells.AsWrittenWholeAmounts | components/editable-cell.tsx:21-43 | as written, an amount without cents survives an unchanged save |
| EditableCells.AsWrittenSaveScales | components/editable-cell.tsx:21-43 | as written, 1.5 opened and saved unchanged saves 15 |
| EditableCells.EditableCell.constructor | components/editable-cell.tsx:20-21 | not editing, and the field holds the value's text written with a decimal comma (the corrected field of the finding below) |
| EditableCells.EditableCell.StartEditing | components/editable-cell.tsx:84-85 | the field opens, keeping its text and value |
| EditableCells.EditableCell.Input | components/editable-cell.tsx:72 | typing replaces the field's text only |
| EditableCells.EditableCell.Save | components/editable-cell.tsx:37-50 | the field closes and the save outcome of its text is returned |
| EditableCells.EditableCell.KeyDown | components/editable-cell.tsx:52-64 | Enter and Tab save; Escape closes and restores the value's decimal-comma text without saving; other keys change nothing |
| EditableCells.EditableCell.Sync | components/editable-cell.tsx:31-35 | a closed field follows the value's decimal-comma text; an open one keeps what was typed |
| TableRows.AmountForSaved | components/month-transactions-table.tsx:60-74 | a saved row shows its first line on the account, or 0 when no line is on it |
| TableRows.RowTotalSame | components/month-transactions-table.tsx:76-81 | rows showing the same amount in every column have the same total |
| TableRows.RowTotalTwo | components/month-transactions-table.tsx:76-81 | a row with amounts in only two columns totals their sum |
| TableRows.EntryLinesAmount | components/month-transactions-table.tsx:112-118 | the lines built from an amounts map show each key's amount, and 0 for other accounts |
| TableRows.MergeFields | components/month-transactions-table.tsx:105-137 | merging keeps id and kind; each field the edit sets is the edit's, and every other field the row's; an empty edit changes nothing |
| TableRows.MergeAmounts | components/month-transactions-table.tsx:110-136 | with edited amounts every column shows the edited amount (0 when left out); otherwise the row's own amount |
| TableOrder.ComparatorConsistent | components/month-transactions-table.tsx:213-226 | the row comparator is antisymmetric and transitive in either direction |
| TableOrder.AllRowsSpec | components/month-transactions-table.tsx:204-227 | a permutation of drafts and saved rows with drafts first; drafts among themselves and saved rows among themselves ordered by date then row order (0 for a draft), reversed for newest first; equal rows (drafts of one date, say) keep their order |
| TableOrder.KeepSaved | components/month-transactions-table.tsx:231-247 | a saved row passes exactly when type and category match, the text occurs in its description ignoring the case of ASCII and Latin-1 letters, and its date lies within both bounds inclusive |
| TableOrder.FilteredRowsSpec | components/month-transactions-table.tsx:229-248 | without an active filter every row; otherwise exactly the rows kept, drafts always among them |
| TableOrder.AccentedSearch | components/month-transactions-table.tsx:231-247 | the search "peña" keeps the description "PEÑA": accented capitals fold as `toLowerCase` folds them |
| TableSave.FailsAsChecked | components/month-transactions-table.tsx:312-347 | each save check fails exactly on its own condition |
| TableSave.CheckSpec | components/month-transactions-table.tsx:316-347 | the checks run in order, the first failing one is reported, and a row is accepted exactly when none fails |
| TableSave.DraftLines | components/month-transactions-table.tsx:349-357 | one non-zero line per column with an amount, in column order; expense amounts negative |
| TableSave.DraftLinesSum | components/month-transactions-table.tsx:349-357 | for a non-expense draft the lines add up to the row total |
| TableSave.DraftIndex | components/month-transactions-table.tsx:358 | the position of the first draft with the id, or -1 when there is none |
| TableSave.SaveDraftSpec | components/month-transactions-table.tsx:301-374 | a create request has a date, a description, non-zero lines (negative for expenses), balanced transfer lines on two or more accounts, and a category except for transfers |
| TableSave.FindTransaction | components/month-transactions-table.tsx:423 | the transaction with the id, or none when no transaction has it |
| TableSave.FromEntriesLast | components/month-transactions-table.tsx:436-441 | `Object.fromEntries` of the saved lines holds, for each account, the amount of the last line on it |
| TableSave.FullAmountsSpec | components/month-transactions-table.tsx:436-441 | the full amounts hold the edited accounts and those with a saved line; an edited account holds its edited amount, any other its last saved amount |
| TableSave.PayloadSpec | components/month-transactions-table.tsx:426-453 | the payload carries exactly the edited fields; amounts when amounts or type changed; every account with a non-zero full amount gets exactly one line, none zero, with the sign of the shown type, carrying the edited amount or else the last saved amount on that account |
| TableSave.PayloadLinesSent | components/month-transactions-table.tsx:436-452 | each line sent carries its account's edited amount, or the last saved amount when the edit leaves the account alone, signed by the type |
| TableSave.PayloadLinesDistinct | components/month-transactions-table.tsx:442-452 | no two lines sent are on the same account |
| TableSave.TypeOnlyResendsSaved | components/month-transactions-table.tsx:435-452 | a type edit without amounts re-sends the saved lines: a saved +500 income line is sent as +500 |
| TableSave.PayloadLinesSound | components/month-transactions-table.tsx:442-452 | every payload line belongs to an account of the full amounts with a non-zero amount and carries that amount with the type's sign |
| TableSave.PayloadLinesComplete | components/month-transactions-table.tsx:442-452 | every account with a non-zero amount has a line |
| TableSave.SaveEditedSpec | components/month-transactions-table.tsx:376-466 | the editor just closes exactly when there is no edit; an update is sent only for an edited saved row whose merged display passes the checks |
| TableSave.NormalizeSpec | components/month-transactions-table.tsx:821-822 | normalising keeps the absolute value, makes expenses non-positive and others non-negative, keeps 0, and is idempotent |
| TableSave.NormalizedAmountsSpec | components/month-transactions-table.tsx:827-835 | a retyped draft keeps its keys; listed accounts are normalised and the others are unchanged |
| TableSave.CurrentAmountsSpec | components/month-transactions-table.tsx:840-844 | only listed accounts appear, each holding the normalised amount shown |
| TableSave.TransferAmountsSpec | components/month-transactions-table.tsx:666-671 | minus the amount on the source, plus on the target, 0 on every other account; a row showing them totals 0 |
| TableState.EditsAfterSpec | components/month-transactions-table.tsx:264-276 | setEdit changes only the row's entry, keeps it exactly when something is set, and overlays the update's fields on the previous edit |
| TableState.EditsAfterWellFormed | components/month-transactions-table.tsx:264-276 | after setEdit no stored edit is empty |
| TableState.EditsAfterIdempotent | components/month-transactions-table.tsx:264-276 | applying the same update twice is applying it once |
| TableState.DisplayAfterEdit | components/month-transactions-table.tsx:259-276 | the displayed row after setEdit is the row merged with the previous edit overlaid by the update |
| TableState.RemoveDraft | components/month-transactions-table.tsx:293 | exactly the drafts with other ids remain |
| TableState.ChangeDrafts | components/month-transactions-table.tsx:781-787 | only the draft with the id changes, and the list keeps its length |
| TableState.RetypedDisplay | components/month-transactions-table.tsx:823-838 | a retyped draft keeps its other fields and shows every column normalised to the new type |
| TableState.SetAmountDisplay | components/month-transactions-table.tsx:930-943 | an amount input on a draft changes only that column, to the stored value |
| TableState.ClearedSpec | components/month-transactions-table.tsx:853-859 | exactly the row's pending inputs are removed; the others keep their text |
| TableState.ShownAmountsSpec | components/month-transactions-table.tsx:945-951 | one entry per column, holding what the row shows |
| TableState.AmountEditDisplay | components/month-transactions-table.tsx:916-958 | after an amount input on a saved row the typed column shows the stored value, and the other columns what they showed |
| TableState.TypeChangeDisplay | components/month-transactions-table.tsx:839-851 | after a type change on a saved row it shows the new type and every column normalised |
| TableState.TransferDisplay | components/month-transactions-table.tsx:661-686 | a confirmed transfer shows minus the amount on the source, plus on the target, 0 elsewhere, and a total of 0 |
| TableState.ConfirmedAmount | components/month-transactions-table.tsx:661-664 | the dialog confirms exactly when both accounts are set and differ and the amount parses to a positive number |
| TableState.TypedTransferAmount | components/month-transactions-table.tsx:629-664 | a positive amount typed with a decimal comma or a decimal point is exactly the amount a confirm writes |
| TableState.RetypeDrafts | components/month-transactions-table.tsx:823-838 | the map over the drafts gives the specified list |
| TableState.NormalizeAmounts | components/month-transactions-table.tsx:827-835 | the loop gives the specified normalised amounts |
| TableState.CollectAmounts | components/month-transactions-table.tsx:840-844 | the loop gives the specified current amounts |
| TableState.TypeChangeUpdate | components/month-transactions-table.tsx:839-850 | the update for a saved row sets the type, and the amounts when some column is non-zero; it is never empty |
| TableState.BuildTransferAmounts | components/month-transactions-table.tsx:666-671 | the loop gives the specified transfer amounts |
| TableState.ClearPending | components/month-transactions-table.tsx:853-859 | the loop removes exactly the row's pending inputs |
| TableState.InputAmount | components/month-transactions-table.tsx:916-958 | the typed text is kept; a draft stores the value in that column; a saved row records the shown amounts with that column replaced |
| TableState.TypeChanged | components/month-transactions-table.tsx:798-859 | a transfer opens the dialog and sets only the type; any other type normalises the amounts and clears the row's pending inputs |
| TableState.WriteTransfer | components/month-transactions-table.tsx:666-686 | a draft receives the transfer amounts and description directly; a saved row receives them as an edit |
| TableState.Confirm | components/month-transactions-table.tsx:661-696 | nothing happens unless the dialog confirms; then the transfer is written, the row's pending inputs cleared and the dialog closed |
| TableState.MonthTable.constructor | components/month-transactions-table.tsx:154-181 | no drafts, edits or pending inputs; nothing open; newest first; no filter |
| TableState.MonthTable.SetEdit | components/month-transactions-table.tsx:264-276 | the edits become the setEdit result; every other part of the table's state stays |
| TableState.MonthTable.AddRow | components/month-transactions-table.tsx:278-290 | a blank income draft dated today is appended; every other part of the table's state stays |
| TableState.MonthTable.DiscardDraft | components/month-transactions-table.tsx:292-299 | the draft and its edit are removed; other edits and every other part of the table's state stay |
| TableState.MonthTable.ToggleEditing | components/month-transactions-table.tsx:1062-1066 | editing a row starts, or stops when it was that row; every other part of the table's state stays |
| TableState.MonthTable.ClearFilters | components/month-transactions-table.tsx:190-196 | every filter is cleared; every other part of the table's state stays |
| TableState.MonthTable.SetFilters | components/month-transactions-table.tsx:486-537 | the filters become the inputs, active exactly when some input is set; every other part of the table's state stays |
| TableState.MonthTable.ToggleDirection | components/month-transactions-table.tsx:724 | the date order flips; every other part of the table's state stays |
| TableState.MonthTable.AmountBlur | components/month-transactions-table.tsx:960-965 | only that input's pending text is forgotten; every other part of the table's state stays |
| TableState.MonthTable.AskDelete | components/month-transactions-table.tsx:1073-1074 | the delete confirmation opens for the row; every other part of the table's state stays |
| TableState.MonthTable.CancelDelete | components/month-transactions-table.tsx:571 | the delete confirmation closes; every other part of the table's state stays |
| TableState.MonthTable.ConfirmDelete | components/month-transactions-table.tsx:468-471 | the row to delete is the one the confirmation is open for; none when it is closed |
| TableState.MonthTable.Deleted | components/month-transactions-table.tsx:472 | after a delete the confirmation closes; every other part of the table's state stays |
| TableState.MonthTable.EditField | components/month-transactions-table.tsx:780-996 | a field input writes into a draft, or is recorded as a saved row's edit; only drafts and edits change |
| TableState.MonthTable.EditDate | components/month-transactions-table.tsx:780-789 | a draft's date is written, or the saved row's edit records it and the row then shows the new date; only drafts and edits change |
| TableState.MonthTable.EditDescription | components/month-transactions-table.tsx:878-887 | a draft's description is written, or the saved row's edit records it and the row then shows it; only drafts and edits change |
| TableState.MonthTable.EditCategory | components/month-transactions-table.tsx:982-996 | a draft's category is written, or the saved row's edit records it and the row then shows it (none for an empty choice); only drafts and edits change |
| TableState.MonthTable.AmountInput | components/month-transactions-table.tsx:916-958 | the typed text is kept and the stored value written into the draft or the saved row's edit, as InputAmount computes; only drafts, edits and pending texts change |
| TableState.MonthTable.ChangeType | components/month-transactions-table.tsx:798-859 | a transfer opens the dialog; another type normalises the row's amounts and forgets its typed texts, as TypeChanged computes; editor, error, order, filters and delete confirmation stay |
| TableState.MonthTable.ChooseTransferFrom | components/month-transactions-table.tsx:595-597 | the dialog's source account is set; nothing else changes |
| TableState.MonthTable.ChooseTransferTo | components/month-transactions-table.tsx:610-612 | the dialog's destination account is set; nothing else changes |
| TableState.MonthTable.TypeTransferAmount | components/month-transactions-table.tsx:625-629 | the dialog keeps the typed amount with its first comma turned into a point; nothing else changes |
| TableState.MonthTable.CancelTransfer | components/month-transactions-table.tsx:640-654 | the row's previous type is restored (on the draft, or as an edit) and the dialog closes; pending texts, editor, error, order, filters and delete confirmation stay |
| TableState.MonthTable.ConfirmTransfer | components/month-transactions-table.tsx:661-696 | the state becomes the result of Confirm, or stays entirely when nothing is confirmed; editor, error, order, filters and delete confirmation stay |
| TableState.MonthTable.Commit | components/month-transactions-table.tsx:154-181 | a handler's drafts, edits, pending inputs and dialog are stored together, keeping the table well formed; every other part of the state stays |
| TableState.MonthTable.SaveDraftRow | components/month-transactions-table.tsx:301-374 | the check's first failure becomes the validation error, or the error clears and a create request is returned; nothing else changes |
| TableState.MonthTable.DraftCreated | components/month-transactions-table.tsx:368 | after a create succeeds the draft is removed; every other part of the table's state stays |
| TableState.MonthTable.SaveEditedRow | components/month-transactions-table.tsx:376-466 | closes the editor when there is no edit; otherwise reports the first failed check, or returns the update payload; only the error and the editor change |
| TableState.MonthTable.EditSaved | components/month-transactions-table.tsx:455-460 | after an update succeeds the row's edit is dropped and the editor closes; every other part of the table's state stays |

## Left out

- Database access, `Promise.all`, authentication and error throwing on failed queries. Query results are
  parameters. Their ordering (`order(...)`, months newest first) is stated as a precondition where a property
  needs it.
- `.single()` returning an error for a missing month. `getCashFlowMonthDetail` takes the month as an option, and a
  missing month gives null.
- Floating point. Amounts are whole numbers of cents, so `toFixed(2)` is exact and the transfer-balance check
  `Math.abs(sum) > 1e-6` becomes `sum != 0`. `parseFloat` and `Number` read decimal literals only: no exponents,
  no `Infinity`, no hexadecimal. Digits beyond the second decimal are dropped.
- Dates and the clock. `AddRow` and the quick-add sheet take the draft id and today's date as parameters.
- MonthRollover.NextMonth: returns none for an empty list, where the source falls back to the current year and
  month of the clock.
- Hooks, React Query mutations, focus handling and JSX rendering. A successful `mutateAsync` is modelled by the
  caller invoking `DraftCreated`, `EditSaved`, `Saved` or `Deleted` afterwards; a failed one changes nothing.
- The delete itself (`deleteTx.mutateAsync`). `ConfirmDelete` only returns the id to delete.
- A `RowEdit` key explicitly set to `undefined` is the same as an absent key (None). The source behaves the same
  way when it checks `!== undefined`.
- TableState.MonthTable.DraftCreated: as written, a saved draft's entry in `edits` is left behind (source line 368
  removes only the draft). The model keeps that behaviour.
- The display-only parts of the income statement (row labels such as "TOTAL INGRESOS"). The statement's income
  section follows the code: it has no unclassified row.
- LegacySummary.SplitKeyJoin: proved only for ids without "|". With a "|" in an id, the key split at source
  line 616 is ambiguous.
- EditableCells.EditableCell.constructor: fills a number cell's field with its amount written with a decimal comma
  (`EditText`), the corrected field of the finding below. As written the component uses `String(value)`, which
  writes a decimal point; `JsText` and `AsWrittenSaveScales` model that version.
- EditableCells.EditableCell.KeyDown: Escape puts back the decimal-comma text (`EditText`), not `String(value)`,
  for the same reason.
- EditableCells.EditableCell.Sync: a closed field follows the decimal-comma text (`EditText`), not
  `String(value)`, for the same reason.
- Text.Lower: folds the ASCII and Latin-1 capitals (`A` to `Z`, `À` to `Þ` except `×`). `toLowerCase` also folds
  the capitals of other scripts (Latin Extended, Greek, Cyrillic, ...) and turns a few characters into two.
- TableOrder.KeepSaved: the description search ignores case through `Text.Lower`, so only for ASCII and Latin-1
  letters.
- TableOrder.FilteredRowsSpec: the same limit as KeepSaved for the description search.
- The annual report's unclassified income row follows the code (source lines 173-174): it is added when its cells
  do not sum to zero, not when some single month is non-zero.
- `formatDate`, the badge and label tables, and the category names shown in read-only cells.
- `lib/db/types.ts` and the thin server actions and hooks around the core. These are not part of this model.

## Findings

| source | as written | input that shows it | evidently intended | confidence | as-written member | corrected member |
|---|---|---|---|---|---|---|
| components/editable-cell.tsx:21-57 | a number cell's field is filled with `String(value)`, which writes a decimal point, and the save removes every dot before parsing | the value 1.5 opened and saved without a change is saved as 15 | an unchanged value saves as itself (the field should show the amount with a decimal comma, as the save reads it) | not executed | EditableCells.AsWrittenSaveScales | EditableCells.NumberRoundTrip |
