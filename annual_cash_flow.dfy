/**
 * The annual cash-flow report: for every month of a fiscal range, the opening
 * balance of each active account, the income of each income category (plus
 * an unclassified row when it does not cancel out), the expenses of each
 * category in the fixed priority order, the result, and the closing balance
 * of each account. Every totals line adds the rows above it month by month.
 */
module AnnualCashFlow {
  import opened Ledger
  import opened Grid
  import opened Periods
  import opened CategoryOrder


  datatype AnnualReport = AnnualReport(
    months: seq<Month>,
    openingBalances: seq<GridRow>,
    openingTotal: seq<MonthColumn>,
    incomeRows: seq<GridRow>,
    incomeTotal: seq<MonthColumn>,
    expenseRows: seq<GridRow>,
    expenseTotal: seq<MonthColumn>,
    result: seq<MonthColumn>,
    closingBalances: seq<GridRow>,
    closingTotal: seq<MonthColumn>)

  // ----- Opening balances -----

  predicate OpensAt(o: OpeningBalance, monthId: string, accountId: string) {
    o.monthId == monthId && o.accountId == accountId
  }

  /**
   * `openingBalances.find((o) => o.month_id === m && o.account_id === a)?.amount ?? 0`:
   * the amount of the first opening balance of that account and month, or 0
   * when there is none.
   */
  function OpeningAmount(obs: seq<OpeningBalance>, monthId: string, accountId: string): (r: int)
    ensures (forall i :: 0 <= i < |obs| ==> !OpensAt(obs[i], monthId, accountId)) ==> r == 0
    ensures forall i :: (0 <= i < |obs| && OpensAt(obs[i], monthId, accountId)
                         && forall k :: 0 <= k < i ==> !OpensAt(obs[k], monthId, accountId))
                        ==> r == obs[i].amount
  {
    if obs == [] then 0
    else if OpensAt(obs[0], monthId, accountId) then obs[0].amount
    else
      assert forall i :: 1 <= i < |obs| ==> obs[i] == obs[1..][i - 1];
      OpeningAmount(obs[1..], monthId, accountId)
  }

  // ----- Transaction filters -----

  function InMonth(monthId: string): Transaction -> bool {
    (t: Transaction) => t.monthId == monthId
  }

  function InMonthWithIncomeCategory(monthId: string, incomeCategoryId: string): Transaction -> bool {
    (t: Transaction) => t.monthId == monthId && t.incomeCategoryId == Some(incomeCategoryId)
  }

  function InMonthUnclassifiedIncome(monthId: string): Transaction -> bool {
    (t: Transaction) => t.monthId == monthId && !Truthy(t.incomeCategoryId)
  }

  function InMonthWithCategory(monthId: string, categoryId: string): Transaction -> bool {
    (t: Transaction) => t.monthId == monthId && t.categoryId == Some(categoryId)
  }

  // ----- Cells -----

  /** The income of one income category in one month: the signed sum of every line of its income transactions. */
  function IncomeAmount(incomeTxs: seq<Transaction>, monthId: string, incomeCategoryId: string): int {
    NetSum(Filter(incomeTxs, InMonthWithIncomeCategory(monthId, incomeCategoryId)))
  }

  /** The income of one month whose income category is missing or empty. */
  function UnclassifiedIncomeAmount(incomeTxs: seq<Transaction>, monthId: string): int {
    NetSum(Filter(incomeTxs, InMonthUnclassifiedIncome(monthId)))
  }

  /** The expense of one category in one month: the sum of the absolute nets of its expense transactions. */
  function ExpenseAmount(expenseTxs: seq<Transaction>, monthId: string, categoryId: string): (r: int)
    ensures r >= 0
  {
    AbsNetSum(Filter(expenseTxs, InMonthWithCategory(monthId, categoryId)))
  }

  /** What an account receives from some transactions: the first line each books on it. */
  function AccountActivity(txs: seq<Transaction>, accountId: string): int {
    if txs == [] then 0 else LineAmountOr0(txs[0].amounts, accountId) + AccountActivity(txs[1..], accountId)
  }

  /** An account's closing balance for a month: its opening balance plus that month's activity of every type. */
  function ClosingAmount(obs: seq<OpeningBalance>, txs: seq<Transaction>, monthId: string, accountId: string): int {
    OpeningAmount(obs, monthId, accountId) + AccountActivity(Filter(txs, InMonth(monthId)), accountId)
  }

  // ----- Rows -----

  function OpeningRows(accounts: seq<Account>, months: seq<Month>, obs: seq<OpeningBalance>): seq<GridRow> {
    KeyedRows(AccountHeads(accounts), months, (a: string, m: string) => OpeningAmount(obs, m, a))
  }

  function IncomeRows(incomeCategories: seq<IncomeCategory>, months: seq<Month>, incomeTxs: seq<Transaction>): seq<GridRow> {
    KeyedRows(IncomeHeads(incomeCategories), months, (ic: string, m: string) => IncomeAmount(incomeTxs, m, ic))
  }

  function UnclassifiedIncomeRow(months: seq<Month>, incomeTxs: seq<Transaction>): GridRow {
    Row(None, UnclassifiedName, months, (m: string) => UnclassifiedIncomeAmount(incomeTxs, m))
  }

  function ExpenseRows(sorted: seq<Category>, months: seq<Month>, expenseTxs: seq<Transaction>): seq<GridRow> {
    KeyedRows(CategoryHeads(sorted), months, (c: string, m: string) => ExpenseAmount(expenseTxs, m, c))
  }

  function ClosingRows(accounts: seq<Account>, months: seq<Month>, obs: seq<OpeningBalance>, txs: seq<Transaction>): seq<GridRow> {
    KeyedRows(AccountHeads(accounts), months, (a: string, m: string) => ClosingAmount(obs, txs, m, a))
  }

  // ----- What the report promises -----

  /** One opening row per account, holding its opening balances, and their totals line. */
  ghost predicate OpeningSection(months: seq<Month>, rows: seq<GridRow>, total: seq<MonthColumn>,
                                 accounts: seq<Account>, obs: seq<OpeningBalance>) {
    |rows| == |accounts|
    && (forall i :: 0 <= i < |accounts| ==>
          rows[i].key == Some(accounts[i].id)
          && rows[i].name == accounts[i].name
          && CellsAre(rows[i], months, (m: string) => OpeningAmount(obs, m, accounts[i].id)))
    && TotalsLine(total, months, rows)
  }

  /**
   * One income row per income category, then the unclassified row exactly
   * when its cells do not sum to zero, and the totals line of all of them.
   */
  ghost predicate IncomeSection(months: seq<Month>, rows: seq<GridRow>, total: seq<MonthColumn>,
                                incomeCategories: seq<IncomeCategory>, incomeTxs: seq<Transaction>) {
    var n := |incomeCategories|;
    var unclassifiedTotal := ColumnsSum(Columns(months, (m: string) => UnclassifiedIncomeAmount(incomeTxs, m)));
    |rows| == n + (if unclassifiedTotal != 0 then 1 else 0)
    && (forall i :: 0 <= i < n ==>
          rows[i].key == Some(incomeCategories[i].id)
          && rows[i].name == incomeCategories[i].name
          && CellsAre(rows[i], months, (m: string) => IncomeAmount(incomeTxs, m, incomeCategories[i].id)))
    && (unclassifiedTotal != 0 ==>
          rows[n].key == None && rows[n].name == UnclassifiedName
          && CellsAre(rows[n], months, (m: string) => UnclassifiedIncomeAmount(incomeTxs, m)))
    && TotalsLine(total, months, rows)
  }

  /**
   * One expense row per category in priority order, every cell and every
   * total cell non-negative, and the totals line of the rows.
   */
  ghost predicate ExpenseSection(months: seq<Month>, rows: seq<GridRow>, total: seq<MonthColumn>,
                                 categories: seq<Category>, expenseTxs: seq<Transaction>) {
    var sorted := SortCategories(categories);
    |rows| == |sorted| == |categories|
    && (forall i :: 0 <= i < |sorted| ==>
          rows[i].key == Some(sorted[i].id)
          && rows[i].name == sorted[i].name
          && CellsAre(rows[i], months, (m: string) => ExpenseAmount(expenseTxs, m, sorted[i].id)))
    && NonNegativeRows(rows)
    && TotalsLine(total, months, rows)
    && (forall j :: 0 <= j < |total| ==> total[j].amount >= 0)
  }

  /** One closing row per account, holding its closing balances, and their totals line. */
  ghost predicate ClosingSection(months: seq<Month>, rows: seq<GridRow>, total: seq<MonthColumn>,
                                 accounts: seq<Account>, obs: seq<OpeningBalance>, txs: seq<Transaction>) {
    |rows| == |accounts|
    && (forall i :: 0 <= i < |accounts| ==>
          rows[i].key == Some(accounts[i].id)
          && rows[i].name == accounts[i].name
          && CellsAre(rows[i], months, (m: string) => ClosingAmount(obs, txs, m, accounts[i].id)))
    && TotalsLine(total, months, rows)
  }

  lemma OpeningSpec(accounts: seq<Account>, months: seq<Month>, obs: seq<OpeningBalance>)
    ensures var rows := OpeningRows(accounts, months, obs);
            OpeningSection(months, rows, TotalColumns(months, rows), accounts, obs)
  {
    TotalsOfRows(months, OpeningRows(accounts, months, obs));
  }

  lemma ClosingSpec(accounts: seq<Account>, months: seq<Month>, obs: seq<OpeningBalance>, txs: seq<Transaction>)
    ensures var rows := ClosingRows(accounts, months, obs, txs);
            ClosingSection(months, rows, TotalColumns(months, rows), accounts, obs, txs)
  {
    TotalsOfRows(months, ClosingRows(accounts, months, obs, txs));
  }

  /** The income rows, with the unclassified row pushed when its total is not zero. */
  function IncomeRowsWithUnclassified(incomeCategories: seq<IncomeCategory>, months: seq<Month>, incomeTxs: seq<Transaction>): seq<GridRow> {
    var unclassified := UnclassifiedIncomeRow(months, incomeTxs);
    IncomeRows(incomeCategories, months, incomeTxs) + (if unclassified.total != 0 then [unclassified] else [])
  }

  lemma IncomeSpec(incomeCategories: seq<IncomeCategory>, months: seq<Month>, incomeTxs: seq<Transaction>)
    ensures var rows := IncomeRowsWithUnclassified(incomeCategories, months, incomeTxs);
            IncomeSection(months, rows, TotalColumns(months, rows), incomeCategories, incomeTxs)
  {
    var listed := IncomeRows(incomeCategories, months, incomeTxs);
    var unclassified := UnclassifiedIncomeRow(months, incomeTxs);
    var rows := IncomeRowsWithUnclassified(incomeCategories, months, incomeTxs);
    RowCells(None, UnclassifiedName, months, (m: string) => UnclassifiedIncomeAmount(incomeTxs, m));
    forall i | 0 <= i < |rows| ensures RowOver(rows[i], months) {
      if i >= |listed| {
        assert rows[i] == unclassified;
      } else {
        assert rows[i] == listed[i];
      }
    }
    TotalsOfRows(months, rows);
  }

  lemma ExpenseSpec(categories: seq<Category>, months: seq<Month>, expenseTxs: seq<Transaction>)
    ensures var rows := ExpenseRows(SortCategories(categories), months, expenseTxs);
            ExpenseSection(months, rows, TotalColumns(months, rows), categories, expenseTxs)
  {
    var rows := ExpenseRows(SortCategories(categories), months, expenseTxs);
    TotalsOfRows(months, rows);
    ExpenseRowsNonNegative(SortCategories(categories), months, expenseTxs);
    forall j | 0 <= j < |months| ensures TotalColumns(months, rows)[j].amount >= 0 {
      CellSumNonNegative(rows, months[j].id);
    }
  }

  lemma ExpenseRowsNonNegative(sorted: seq<Category>, months: seq<Month>, expenseTxs: seq<Transaction>)
    ensures NonNegativeRows(ExpenseRows(sorted, months, expenseTxs))
  {
    KeyedRowsNonNegative(CategoryHeads(sorted), months, (c: string, m: string) => ExpenseAmount(expenseTxs, m, c));
  }

  /**
   * `getCashFlowAnnual` after its queries: the months of the range, the
   * active accounts and the categories by name, the income categories by
   * display order, and the transactions and opening balances of the range.
   */
  method GetCashFlowAnnual(allMonths: seq<Month>, startYear: int, startMonth: int, endYear: int, endMonth: int,
                           accounts: seq<Account>, categories: seq<Category>, incomeCategories: seq<IncomeCategory>,
                           transactions: seq<Transaction>, openingBalances: seq<OpeningBalance>)
    returns (r: AnnualReport)
    ensures r.months == MonthsInRange(allMonths, startYear, startMonth, endYear, endMonth)
    ensures OpeningSection(r.months, r.openingBalances, r.openingTotal, accounts, openingBalances)
    ensures IncomeSection(r.months, r.incomeRows, r.incomeTotal, incomeCategories, Filter(transactions, OfType(Income)))
    ensures ExpenseSection(r.months, r.expenseRows, r.expenseTotal, categories, Filter(transactions, OfType(Expense)))
    ensures ResultSection(r.months, r.result, r.incomeTotal, r.expenseTotal)
    ensures ClosingSection(r.months, r.closingBalances, r.closingTotal, accounts, openingBalances, transactions)
    ensures RollsForward(r.months, r.openingTotal, r.closingTotal, accounts, transactions)
  {
    var months := MonthsInRange(allMonths, startYear, startMonth, endYear, endMonth);

    var openingRows := OpeningRows(accounts, months, openingBalances);
    var openingTotal := TotalColumns(months, openingRows);
    OpeningSpec(accounts, months, openingBalances);

    var incomeTxs := Filter(transactions, OfType(Income));
    var incomeRows := IncomeRows(incomeCategories, months, incomeTxs);
    var unclassified := UnclassifiedIncomeRow(months, incomeTxs);
    if unclassified.total != 0 {
      incomeRows := incomeRows + [unclassified];
    }
    assert incomeRows == IncomeRowsWithUnclassified(incomeCategories, months, incomeTxs);
    var incomeTotal := TotalColumns(months, incomeRows);
    IncomeSpec(incomeCategories, months, incomeTxs);

    var expenseTxs := Filter(transactions, OfType(Expense));
    var expenseRows := ExpenseRows(SortCategories(categories), months, expenseTxs);
    var expenseTotal := TotalColumns(months, expenseRows);
    ExpenseSpec(categories, months, expenseTxs);

    var result := ResultColumns(months, incomeTotal, expenseTotal);
    ResultSpec(months, incomeRows, expenseRows);

    var closingRows := ClosingRows(accounts, months, openingBalances, transactions);
    var closingTotal := TotalColumns(months, closingRows);
    ClosingSpec(accounts, months, openingBalances, transactions);
    RollForwardSpec(accounts, months, openingBalances, transactions);

    r := AnnualReport(months, openingRows, openingTotal, incomeRows, incomeTotal,
                      expenseRows, expenseTotal, result, closingRows, closingTotal);
  }

  // ----- Closing balances: per-month independence and roll-forward -----

  lemma {:induction false} FilterNoneInMonth(extra: seq<Transaction>, monthId: string)
    requires forall i :: 0 <= i < |extra| ==> extra[i].monthId != monthId
    ensures Filter(extra, InMonth(monthId)) == []
  {
    if extra != [] {
      FilterNoneInMonth(extra[1..], monthId);
    }
  }

  /** Transactions of other months, inserted anywhere, leave a month's closing balance unchanged. */
  lemma ClosingIgnoresOtherMonths(obs: seq<OpeningBalance>, before: seq<Transaction>, extra: seq<Transaction>,
                                  after: seq<Transaction>, monthId: string, accountId: string)
    requires forall i :: 0 <= i < |extra| ==> extra[i].monthId != monthId
    ensures ClosingAmount(obs, before + extra + after, monthId, accountId) == ClosingAmount(obs, before + after, monthId, accountId)
  {
    FilterAppend(before + extra, after, InMonth(monthId));
    FilterAppend(before, extra, InMonth(monthId));
    FilterAppend(before, after, InMonth(monthId));
    FilterNoneInMonth(extra, monthId);
    assert Filter(before, InMonth(monthId)) + [] == Filter(before, InMonth(monthId));
  }

  predicate DistinctHeads(heads: seq<Heading>) {
    forall i, j :: 0 <= i < j < |heads| ==> heads[i].id != heads[j].id
  }

  predicate HeadIn(heads: seq<Heading>, id: string) {
    exists i :: 0 <= i < |heads| && heads[i].id == id
  }

  /** A transaction books at most one line per account, and only on accounts of the report. */
  predicate LinesOnAccounts(t: Transaction, heads: seq<Heading>) {
    (forall i, j :: 0 <= i < j < |t.amounts| ==> t.amounts[i].accountId != t.amounts[j].accountId)
    && (forall i :: 0 <= i < |t.amounts| ==> HeadIn(heads, t.amounts[i].accountId))
  }

  /** The sum, over the accounts, of what one transaction's lines give each of them. */
  function AccountsLineSum(heads: seq<Heading>, lines: seq<AmountLine>): int {
    if heads == [] then 0 else LineAmountOr0(lines, heads[0].id) + AccountsLineSum(heads[1..], lines)
  }

  lemma {:induction false} AccountsLineSumEmpty(heads: seq<Heading>)
    ensures AccountsLineSum(heads, []) == 0
  {
    if heads != [] {
      AccountsLineSumEmpty(heads[1..]);
    }
  }

  lemma LineAmountCons(l: AmountLine, rest: seq<AmountLine>, accountId: string)
    ensures LineAmountOr0([l] + rest, accountId) == if l.accountId == accountId then l.amount else LineAmountOr0(rest, accountId)
  {
    assert ([l] + rest)[1..] == rest;
  }

  lemma {:induction false} AccountsLineSumCons(heads: seq<Heading>, l: AmountLine, rest: seq<AmountLine>)
    requires DistinctHeads(heads)
    ensures AccountsLineSum(heads, [l] + rest)
         == AccountsLineSum(heads, rest) + (if HeadIn(heads, l.accountId) then l.amount - LineAmountOr0(rest, l.accountId) else 0)
  {
    if heads != [] {
      var tail := heads[1..];
      assert DistinctHeads(tail) by {
        forall i, j | 0 <= i < j < |tail| ensures tail[i].id != tail[j].id {
          assert tail[i] == heads[i + 1] && tail[j] == heads[j + 1];
        }
      }
      AccountsLineSumCons(tail, l, rest);
      LineAmountCons(l, rest, heads[0].id);
      if heads[0].id == l.accountId {
        assert !HeadIn(tail, l.accountId) by {
          forall k | 0 <= k < |tail| ensures tail[k].id != l.accountId {
            assert tail[k] == heads[k + 1];
          }
        }
        assert HeadIn(heads, l.accountId) by { assert heads[0].id == l.accountId; }
      } else {
        assert HeadIn(heads, l.accountId) <==> HeadIn(tail, l.accountId) by {
          if HeadIn(heads, l.accountId) {
            var k :| 0 <= k < |heads| && heads[k].id == l.accountId;
            assert k > 0 && tail[k - 1] == heads[k];
          }
          if HeadIn(tail, l.accountId) {
            var k :| 0 <= k < |tail| && tail[k].id == l.accountId;
            assert heads[k + 1] == tail[k];
          }
        }
      }
    }
  }

  /** When its lines sit on distinct accounts of the report, a transaction's lines are each counted once: the accounts receive its net. */
  lemma {:induction false} AccountsLineSumIsNet(heads: seq<Heading>, lines: seq<AmountLine>)
    requires DistinctHeads(heads)
    requires forall i, j :: 0 <= i < j < |lines| ==> lines[i].accountId != lines[j].accountId
    requires forall i :: 0 <= i < |lines| ==> HeadIn(heads, lines[i].accountId)
    ensures AccountsLineSum(heads, lines) == LinesSum(lines)
  {
    if lines == [] {
      AccountsLineSumEmpty(heads);
    } else {
      var rest := lines[1..];
      assert lines == [lines[0]] + rest;
      AccountsLineSumCons(heads, lines[0], rest);
      assert HeadIn(heads, lines[0].accountId);
      forall i, j | 0 <= i < j < |rest| ensures rest[i].accountId != rest[j].accountId {
        assert rest[i] == lines[i + 1] && rest[j] == lines[j + 1];
      }
      AccountsLineSumIsNet(heads, rest);
      assert forall i :: 0 <= i < |rest| ==> rest[i].accountId != lines[0].accountId by {
        forall i | 0 <= i < |rest| ensures rest[i].accountId != lines[0].accountId {
          assert rest[i] == lines[i + 1];
        }
      }
      assert LineAmountOr0(rest, lines[0].accountId) == 0;
    }
  }

  /** The activity of every account of the report, added up. */
  function ActivityAcross(heads: seq<Heading>, txs: seq<Transaction>): int {
    if heads == [] then 0 else AccountActivity(txs, heads[0].id) + ActivityAcross(heads[1..], txs)
  }

  lemma {:induction false} ActivityAcrossCons(heads: seq<Heading>, t: Transaction, rest: seq<Transaction>)
    ensures ActivityAcross(heads, [t] + rest) == AccountsLineSum(heads, t.amounts) + ActivityAcross(heads, rest)
  {
    assert ([t] + rest)[1..] == rest;
    if heads != [] {
      ActivityAcrossCons(heads[1..], t, rest);
    }
  }

  lemma {:induction false} ActivityAcrossEmpty(heads: seq<Heading>)
    ensures ActivityAcross(heads, []) == 0
  {
    if heads != [] {
      ActivityAcrossEmpty(heads[1..]);
    }
  }

  /** Over transactions whose lines sit on distinct accounts of the report, the accounts together receive their net sum. */
  lemma {:induction false} ActivityAcrossIsNet(heads: seq<Heading>, txs: seq<Transaction>)
    requires DistinctHeads(heads)
    requires forall t :: t in txs ==> LinesOnAccounts(t, heads)
    ensures ActivityAcross(heads, txs) == NetSum(txs)
  {
    if txs == [] {
      ActivityAcrossEmpty(heads);
    } else {
      assert txs == [txs[0]] + txs[1..];
      ActivityAcrossCons(heads, txs[0], txs[1..]);
      assert txs[0] in txs;
      AccountsLineSumIsNet(heads, txs[0].amounts);
      assert forall t :: t in txs[1..] ==> t in txs;
      ActivityAcrossIsNet(heads, txs[1..]);
    }
  }

  lemma {:induction false} ClosingHeadsSum(heads: seq<Heading>, obs: seq<OpeningBalance>, txs: seq<Transaction>, monthId: string)
    ensures HeadsSum(heads, monthId, (a: string, m: string) => ClosingAmount(obs, txs, m, a))
         == HeadsSum(heads, monthId, (a: string, m: string) => OpeningAmount(obs, m, a))
            + ActivityAcross(heads, Filter(txs, InMonth(monthId)))
  {
    if heads != [] {
      ClosingHeadsSum(heads[1..], obs, txs, monthId);
    }
  }

  lemma {:induction false} FilterMembers(txs: seq<Transaction>, p: Transaction -> bool)
    ensures forall t :: t in Filter(txs, p) ==> t in txs
  {
    var r := Filter(txs, p);
    forall t | t in r ensures t in txs {
      var i :| 0 <= i < |r| && r[i] == t;
    }
  }

  /**
   * The closing total of a month is its opening total plus the net of every
   * transaction of that month, when each transaction books at most one line
   * per account and only on accounts of the report, whose ids are distinct.
   */
  lemma ClosingRollForward(accounts: seq<Account>, months: seq<Month>, obs: seq<OpeningBalance>, txs: seq<Transaction>, j: nat)
    requires j < |months|
    requires DistinctHeads(AccountHeads(accounts))
    requires forall t :: t in txs && t.monthId == months[j].id ==> LinesOnAccounts(t, AccountHeads(accounts))
    ensures TotalColumns(months, ClosingRows(accounts, months, obs, txs))[j].amount
         == TotalColumns(months, OpeningRows(accounts, months, obs))[j].amount + NetSum(Filter(txs, InMonth(months[j].id)))
  {
    var heads := AccountHeads(accounts);
    var m := months[j].id;
    KeyedTotalAt(heads, months, (a: string, mm: string) => OpeningAmount(obs, mm, a), j);
    KeyedTotalAt(heads, months, (a: string, mm: string) => ClosingAmount(obs, txs, mm, a), j);
    ClosingHeadsSum(heads, obs, txs, m);
    MonthActivityIsNet(heads, txs, m);
  }

  /** Over one month's transactions, the accounts of the report together receive their net sum. */
  lemma MonthActivityIsNet(heads: seq<Heading>, txs: seq<Transaction>, m: string)
    requires DistinctHeads(heads)
    requires forall t :: t in txs && t.monthId == m ==> LinesOnAccounts(t, heads)
    ensures ActivityAcross(heads, Filter(txs, InMonth(m))) == NetSum(Filter(txs, InMonth(m)))
  {
    var monthTxs := Filter(txs, InMonth(m));
    FilterMembers(txs, InMonth(m));
    assert forall t :: t in monthTxs ==> t.monthId == m by {
      forall t | t in monthTxs ensures t.monthId == m {
        var i :| 0 <= i < |monthTxs| && monthTxs[i] == t;
      }
    }
    ActivityAcrossIsNet(heads, monthTxs);
  }

  /**
   * When every transaction books at most one line per account and only on
   * accounts of the report (whose ids are distinct), each month's closing
   * total is its opening total plus the net of that month's transactions.
   */
  ghost predicate RollsForward(months: seq<Month>, openingTotal: seq<MonthColumn>, closingTotal: seq<MonthColumn>,
                               accounts: seq<Account>, txs: seq<Transaction>)
  {
    DistinctHeads(AccountHeads(accounts)) && (forall t :: t in txs ==> LinesOnAccounts(t, AccountHeads(accounts)))
    ==> |openingTotal| == |months| && |closingTotal| == |months|
        && forall j :: 0 <= j < |months| ==>
             closingTotal[j].amount == openingTotal[j].amount + NetSum(Filter(txs, InMonth(months[j].id)))
  }

  lemma RollForwardSpec(accounts: seq<Account>, months: seq<Month>, obs: seq<OpeningBalance>, txs: seq<Transaction>)
    ensures RollsForward(months, TotalColumns(months, OpeningRows(accounts, months, obs)),
                         TotalColumns(months, ClosingRows(accounts, months, obs, txs)), accounts, txs)
  {
    TotalsOfRows(months, ClosingRows(accounts, months, obs, txs));
    TotalsOfRows(months, OpeningRows(accounts, months, obs));
    if DistinctHeads(AccountHeads(accounts)) && (forall t :: t in txs ==> LinesOnAccounts(t, AccountHeads(accounts))) {
      forall j | 0 <= j < |months|
        ensures TotalColumns(months, ClosingRows(accounts, months, obs, txs))[j].amount
             == TotalColumns(months, OpeningRows(accounts, months, obs))[j].amount + NetSum(Filter(txs, InMonth(months[j].id)))
      {
        ClosingRollForward(accounts, months, obs, txs, j);
      }
    }
  }
}
