/**
 * The income statement (profit and loss) of a fiscal range: income per
 * income category and expenses per category in priority order, month by
 * month, on a cash basis (the month a transaction is booked in) or an
 * accrual basis (the month it accrues to, when it names one), optionally
 * restricted to business transactions.
 */
module IncomeStatement {
  import opened Ledger
  import opened Grid
  import opened Periods
  import opened CategoryOrder
  import OM = OrderedMaps

  const IncomeTotalName: string := "TOTAL INGRESOS"
  const ExpenseTotalName: string := "TOTAL EGRESOS"
  const NetResultName: string := "RESULTADO"

  datatype Statement = Statement(
    months: seq<Month>,
    incomeRows: seq<GridRow>,
    incomeTotal: GridRow,
    expenseRows: seq<GridRow>,
    expenseTotal: GridRow,
    netResult: GridRow)

  /** On an accrual basis a transaction counts in the month it accrues to, when it names one. */
  function EffectiveMonthId(t: Transaction, accrualBasis: bool): (r: string)
    ensures !accrualBasis ==> r == t.monthId
    ensures accrualBasis && Truthy(t.accrualMonthId) ==> r == t.accrualMonthId.value
    ensures accrualBasis && !Truthy(t.accrualMonthId) ==> r == t.monthId
  {
    if accrualBasis && Truthy(t.accrualMonthId) then t.accrualMonthId.value else t.monthId
  }

  /** The transactions booked in one of the range's months (the rows the report reads). */
  function BookedIn(monthIds: seq<string>): Transaction -> bool {
    (t: Transaction) => t.monthId in monthIds
  }

  function IsBusiness(): Transaction -> bool {
    (t: Transaction) => t.isBusinessExpense
  }

  function IncomeIn(accrualBasis: bool, monthId: string, incomeCategoryId: string): Transaction -> bool {
    (t: Transaction) => EffectiveMonthId(t, accrualBasis) == monthId && t.incomeCategoryId == Some(incomeCategoryId)
  }

  function ExpenseIn(accrualBasis: bool, monthId: string, categoryId: string): Transaction -> bool {
    (t: Transaction) => EffectiveMonthId(t, accrualBasis) == monthId && t.categoryId == Some(categoryId)
  }

  /** The transactions the statement considers: every type, only business ones when asked to. */
  function InScope(txs: seq<Transaction>, excludeNonBusiness: bool): seq<Transaction> {
    if excludeNonBusiness then Filter(txs, IsBusiness()) else txs
  }

  function IncomeCell(incomeTxs: seq<Transaction>, accrualBasis: bool, monthId: string, incomeCategoryId: string): int {
    NetSum(Filter(incomeTxs, IncomeIn(accrualBasis, monthId, incomeCategoryId)))
  }

  function ExpenseCell(expenseTxs: seq<Transaction>, accrualBasis: bool, monthId: string, categoryId: string): (r: int)
    ensures r >= 0
  {
    AbsNetSum(Filter(expenseTxs, ExpenseIn(accrualBasis, monthId, categoryId)))
  }

  function IncomeRows(incomeCategories: seq<IncomeCategory>, months: seq<Month>, incomeTxs: seq<Transaction>, accrualBasis: bool): seq<GridRow> {
    KeyedRows(IncomeHeads(incomeCategories), months, (ic: string, m: string) => IncomeCell(incomeTxs, accrualBasis, m, ic))
  }

  function ExpenseRows(sorted: seq<Category>, months: seq<Month>, expenseTxs: seq<Transaction>, accrualBasis: bool): seq<GridRow> {
    KeyedRows(CategoryHeads(sorted), months, (c: string, m: string) => ExpenseCell(expenseTxs, accrualBasis, m, c))
  }

  /** A totals row: each month's cell adds the rows' cells, and its total adds the rows' totals. */
  function TotalRow(name: string, months: seq<Month>, rows: seq<GridRow>): GridRow {
    GridRow(None, name, TotalColumns(months, rows), RowsTotal(rows))
  }

  /** The result row: income minus expense per month, and the difference of the two totals. */
  function NetRow(months: seq<Month>, incomeTotal: GridRow, expenseTotal: GridRow): GridRow {
    GridRow(None, NetResultName, ResultColumns(months, incomeTotal.months, expenseTotal.months), incomeTotal.total - expenseTotal.total)
  }

  /**
   * `getIncomeStatement` after its queries: the range's months, the income
   * categories by display order, the categories by name, and the
   * transactions (those booked in the range's months are read).
   */
  function GetIncomeStatement(allMonths: seq<Month>, startYear: int, startMonth: int, endYear: int, endMonth: int,
                              accrualBasis: bool, excludeNonBusiness: bool,
                              incomeCategories: seq<IncomeCategory>, categories: seq<Category>,
                              transactions: seq<Transaction>): (r: Statement)
    ensures r.months == MonthsInRange(allMonths, startYear, startMonth, endYear, endMonth)
    ensures |r.incomeRows| == |incomeCategories| && |r.expenseRows| == |categories|
  {
    var months := MonthsInRange(allMonths, startYear, startMonth, endYear, endMonth);
    Assemble(months, incomeCategories, categories, Scope(transactions, months, excludeNonBusiness), accrualBasis)
  }

  /** The transactions read for the range's months, restricted to business ones when asked to. */
  function Scope(transactions: seq<Transaction>, months: seq<Month>, excludeNonBusiness: bool): seq<Transaction> {
    InScope(Filter(transactions, BookedIn(MonthIds(months))), excludeNonBusiness)
  }

  /** The statement over the transactions in scope. */
  function Assemble(months: seq<Month>, incomeCategories: seq<IncomeCategory>, categories: seq<Category>,
                    filtered: seq<Transaction>, accrualBasis: bool): (r: Statement)
    ensures r.months == months
    ensures |r.incomeRows| == |incomeCategories| && |r.expenseRows| == |categories|
  {
    var incomeRows := IncomeRows(incomeCategories, months, Filter(filtered, OfType(Income)), accrualBasis);
    var incomeTotal := TotalRow(IncomeTotalName, months, incomeRows);
    var expenseRows := ExpenseRows(SortCategories(categories), months, Filter(filtered, OfType(Expense)), accrualBasis);
    var expenseTotal := TotalRow(ExpenseTotalName, months, expenseRows);
    Statement(months, incomeRows, incomeTotal, expenseRows, expenseTotal, NetRow(months, incomeTotal, expenseTotal))
  }

  function MonthIds(months: seq<Month>): (ids: seq<string>)
    ensures |ids| == |months| && forall i :: 0 <= i < |months| ==> ids[i] == months[i].id
  {
    seq(|months|, i requires 0 <= i < |months| => months[i].id)
  }

  // ----- What the statement promises -----

  /**
   * A totals row whose cells add the rows month by month and whose total,
   * the sum of the row totals, is also the sum of its own cells.
   */
  ghost predicate TotalsRow(total: GridRow, months: seq<Month>, rows: seq<GridRow>) {
    TotalsLine(total.months, months, rows)
    && total.total == RowsTotal(rows)
    && total.total == ColumnsSum(total.months)
  }

  lemma TotalRowSpec(name: string, months: seq<Month>, rows: seq<GridRow>)
    requires forall i :: 0 <= i < |rows| ==> RowOver(rows[i], months)
    ensures TotalsRow(TotalRow(name, months, rows), months, rows)
  {
    TotalsOfRows(months, rows);
  }

  /**
   * The statement's shape: a row per income category holding its income,
   * a row per category in priority order holding its (non-negative)
   * expense, their totals rows, and a result row that is income minus
   * expense in every month and whose total is the sum of its cells.
   */
  ghost predicate StatementShape(r: Statement, incomeCategories: seq<IncomeCategory>, categories: seq<Category>,
                                 filtered: seq<Transaction>, accrualBasis: bool)
  {
    IncomeShape(r, incomeCategories, Filter(filtered, OfType(Income)), accrualBasis)
    && ExpenseShape(r, SortCategories(categories), Filter(filtered, OfType(Expense)), accrualBasis)
    && ResultSection(r.months, r.netResult.months, r.incomeTotal.months, r.expenseTotal.months)
    && r.netResult.total == r.incomeTotal.total - r.expenseTotal.total
    && r.netResult.total == ColumnsSum(r.netResult.months)
  }

  ghost predicate IncomeShape(r: Statement, incomeCategories: seq<IncomeCategory>, incomeTxs: seq<Transaction>, accrualBasis: bool) {
    |r.incomeRows| == |incomeCategories|
    && (forall i :: 0 <= i < |incomeCategories| ==>
          r.incomeRows[i].name == incomeCategories[i].name
          && CellsAre(r.incomeRows[i], r.months, (m: string) => IncomeCell(incomeTxs, accrualBasis, m, incomeCategories[i].id)))
    && TotalsRow(r.incomeTotal, r.months, r.incomeRows)
  }

  ghost predicate ExpenseShape(r: Statement, sorted: seq<Category>, expenseTxs: seq<Transaction>, accrualBasis: bool) {
    |r.expenseRows| == |sorted|
    && (forall i :: 0 <= i < |sorted| ==>
          r.expenseRows[i].name == sorted[i].name
          && CellsAre(r.expenseRows[i], r.months, (m: string) => ExpenseCell(expenseTxs, accrualBasis, m, sorted[i].id)))
    && NonNegativeRows(r.expenseRows)
    && TotalsRow(r.expenseTotal, r.months, r.expenseRows)
  }

  lemma StatementSpec(months: seq<Month>, incomeCategories: seq<IncomeCategory>, categories: seq<Category>,
                      filtered: seq<Transaction>, accrualBasis: bool)
    ensures StatementShape(Assemble(months, incomeCategories, categories, filtered, accrualBasis),
                           incomeCategories, categories, filtered, accrualBasis)
  {
    var r := Assemble(months, incomeCategories, categories, filtered, accrualBasis);
    IncomeSectionSpec(months, incomeCategories, categories, filtered, accrualBasis);
    ExpenseSectionSpec(months, incomeCategories, categories, filtered, accrualBasis);
    AssembleTotals(months, incomeCategories, categories, filtered, accrualBasis);
    ResultOfTotals(r);
  }

  /**
   * What the report returned by `getIncomeStatement` means: its cells, totals
   * and result are those of the transactions in scope for the range's months.
   */
  lemma GetIncomeStatementSpec(allMonths: seq<Month>, startYear: int, startMonth: int, endYear: int, endMonth: int,
                               accrualBasis: bool, excludeNonBusiness: bool,
                               incomeCategories: seq<IncomeCategory>, categories: seq<Category>,
                               transactions: seq<Transaction>)
    ensures var months := MonthsInRange(allMonths, startYear, startMonth, endYear, endMonth);
            var r := GetIncomeStatement(allMonths, startYear, startMonth, endYear, endMonth, accrualBasis,
                                        excludeNonBusiness, incomeCategories, categories, transactions);
            StatementShape(r, incomeCategories, categories, Scope(transactions, months, excludeNonBusiness), accrualBasis)
  {
    var months := MonthsInRange(allMonths, startYear, startMonth, endYear, endMonth);
    StatementSpec(months, incomeCategories, categories, Scope(transactions, months, excludeNonBusiness), accrualBasis);
  }

  /** The result line of a statement whose totals lines add up its rows is their difference, month by month and in all. */
  lemma ResultOfTotals(r: Statement)
    requires TotalsRow(r.incomeTotal, r.months, r.incomeRows) && TotalsRow(r.expenseTotal, r.months, r.expenseRows)
    requires r.incomeTotal == TotalRow(IncomeTotalName, r.months, r.incomeRows)
    requires r.expenseTotal == TotalRow(ExpenseTotalName, r.months, r.expenseRows)
    requires r.netResult == NetRow(r.months, r.incomeTotal, r.expenseTotal)
    ensures ResultSection(r.months, r.netResult.months, r.incomeTotal.months, r.expenseTotal.months)
    ensures r.netResult.total == r.incomeTotal.total - r.expenseTotal.total
    ensures r.netResult.total == ColumnsSum(r.netResult.months)
  {
    ResultSpec(r.months, r.incomeRows, r.expenseRows);
  }

  /** The totals lines of an assembled statement add up its rows, and the result line subtracts them. */
  lemma AssembleTotals(months: seq<Month>, incomeCategories: seq<IncomeCategory>, categories: seq<Category>,
                       filtered: seq<Transaction>, accrualBasis: bool)
    ensures var r := Assemble(months, incomeCategories, categories, filtered, accrualBasis);
            r.incomeTotal == TotalRow(IncomeTotalName, months, r.incomeRows)
            && r.expenseTotal == TotalRow(ExpenseTotalName, months, r.expenseRows)
            && r.netResult == NetRow(months, r.incomeTotal, r.expenseTotal)
  {
  }

  /** Each income row is named after its income category and holds that category's income per month. */
  lemma IncomeRowsCells(incomeCategories: seq<IncomeCategory>, months: seq<Month>, incomeTxs: seq<Transaction>, accrualBasis: bool)
    ensures var rows := IncomeRows(incomeCategories, months, incomeTxs, accrualBasis);
            |rows| == |incomeCategories| &&
            (forall i :: 0 <= i < |rows| ==> RowOver(rows[i], months)) &&
            forall i :: 0 <= i < |incomeCategories| ==>
              rows[i].name == incomeCategories[i].name
              && CellsAre(rows[i], months, (m: string) => IncomeCell(incomeTxs, accrualBasis, m, incomeCategories[i].id))
  {
    var heads := IncomeHeads(incomeCategories);
    var rows := IncomeRows(incomeCategories, months, incomeTxs, accrualBasis);
    forall i | 0 <= i < |incomeCategories|
      ensures CellsAre(rows[i], months, (m: string) => IncomeCell(incomeTxs, accrualBasis, m, incomeCategories[i].id))
    {
      assert heads[i].id == incomeCategories[i].id;
    }
  }

  /** Each expense row is named after its category and holds that category's expense per month. */
  lemma ExpenseRowsCells(sorted: seq<Category>, months: seq<Month>, expenseTxs: seq<Transaction>, accrualBasis: bool)
    ensures var rows := ExpenseRows(sorted, months, expenseTxs, accrualBasis);
            |rows| == |sorted| &&
            (forall i :: 0 <= i < |rows| ==> RowOver(rows[i], months)) &&
            forall i :: 0 <= i < |sorted| ==>
              rows[i].name == sorted[i].name
              && CellsAre(rows[i], months, (m: string) => ExpenseCell(expenseTxs, accrualBasis, m, sorted[i].id))
  {
    var heads := CategoryHeads(sorted);
    var rows := ExpenseRows(sorted, months, expenseTxs, accrualBasis);
    forall i | 0 <= i < |sorted|
      ensures CellsAre(rows[i], months, (m: string) => ExpenseCell(expenseTxs, accrualBasis, m, sorted[i].id))
    {
      assert heads[i].id == sorted[i].id;
    }
  }

  lemma IncomeSectionSpec(months: seq<Month>, incomeCategories: seq<IncomeCategory>, categories: seq<Category>,
                          filtered: seq<Transaction>, accrualBasis: bool)
    ensures IncomeShape(Assemble(months, incomeCategories, categories, filtered, accrualBasis),
                        incomeCategories, Filter(filtered, OfType(Income)), accrualBasis)
  {
    var r := Assemble(months, incomeCategories, categories, filtered, accrualBasis);
    var incomeTxs := Filter(filtered, OfType(Income));
    assert r.incomeRows == IncomeRows(incomeCategories, months, incomeTxs, accrualBasis);
    IncomeRowsCells(incomeCategories, months, incomeTxs, accrualBasis);
    TotalRowSpec(IncomeTotalName, months, r.incomeRows);
  }

  lemma ExpenseSectionSpec(months: seq<Month>, incomeCategories: seq<IncomeCategory>, categories: seq<Category>,
                           filtered: seq<Transaction>, accrualBasis: bool)
    ensures ExpenseShape(Assemble(months, incomeCategories, categories, filtered, accrualBasis),
                         SortCategories(categories), Filter(filtered, OfType(Expense)), accrualBasis)
  {
    var r := Assemble(months, incomeCategories, categories, filtered, accrualBasis);
    var sorted, expenseTxs := SortCategories(categories), Filter(filtered, OfType(Expense));
    assert r.expenseRows == ExpenseRows(sorted, months, expenseTxs, accrualBasis);
    ExpenseRowsCells(sorted, months, expenseTxs, accrualBasis);
    TotalRowSpec(ExpenseTotalName, months, r.expenseRows);
    ExpenseRowsNonNegative(sorted, months, expenseTxs, accrualBasis);
  }

  lemma ExpenseRowsNonNegative(sorted: seq<Category>, months: seq<Month>, expenseTxs: seq<Transaction>, accrualBasis: bool)
    ensures NonNegativeRows(ExpenseRows(sorted, months, expenseTxs, accrualBasis))
  {
    KeyedRowsNonNegative(CategoryHeads(sorted), months, (c: string, m: string) => ExpenseCell(expenseTxs, accrualBasis, m, c));
  }

  // ----- Cash basis ignores accrual months -----

  function ClearAccrual(t: Transaction): Transaction {
    t.(accrualMonthId := None)
  }

  function ClearAccruals(txs: seq<Transaction>): (r: seq<Transaction>)
    ensures |r| == |txs| && forall i :: 0 <= i < |txs| ==> r[i] == ClearAccrual(txs[i])
  {
    seq(|txs|, i requires 0 <= i < |txs| => ClearAccrual(txs[i]))
  }

  lemma FilterHead(s: seq<Transaction>, p: Transaction -> bool)
    requires s != []
    ensures Filter(s, p) == (if p(s[0]) then [s[0]] else []) + Filter(s[1..], p)
  {
  }

  lemma ClearAccrualsAppend(a: seq<Transaction>, b: seq<Transaction>)
    ensures ClearAccruals(a + b) == ClearAccruals(a) + ClearAccruals(b)
  {
  }

  lemma {:induction false} FilterClear(txs: seq<Transaction>, p: Transaction -> bool)
    requires forall t :: p(t) == p(ClearAccrual(t))
    ensures Filter(ClearAccruals(txs), p) == ClearAccruals(Filter(txs, p))
  {
    if txs != [] {
      var h, tl := txs[0], txs[1..];
      var c := ClearAccruals(txs);
      assert c[0] == ClearAccrual(h) && p(c[0]) == p(h);
      assert c[1..] == ClearAccruals(tl);
      FilterHead(c, p);
      FilterHead(txs, p);
      FilterClear(tl, p);
      var head := if p(h) then [h] else [];
      ClearAccrualsAppend(head, Filter(tl, p));
      assert ClearAccruals(head) == if p(h) then [ClearAccrual(h)] else [];
    }
  }

  lemma {:induction false} SumsClear(txs: seq<Transaction>)
    ensures NetSum(ClearAccruals(txs)) == NetSum(txs)
    ensures AbsNetSum(ClearAccruals(txs)) == AbsNetSum(txs)
  {
    if txs != [] {
      assert ClearAccruals(txs)[1..] == ClearAccruals(txs[1..]);
      SumsClear(txs[1..]);
    }
  }

  /** On a cash basis the statement is the same whatever accrual months the transactions name. */
  lemma CashBasisIgnoresAccrual(allMonths: seq<Month>, startYear: int, startMonth: int, endYear: int, endMonth: int,
                                excludeNonBusiness: bool, incomeCategories: seq<IncomeCategory>, categories: seq<Category>,
                                transactions: seq<Transaction>)
    ensures GetIncomeStatement(allMonths, startYear, startMonth, endYear, endMonth, false, excludeNonBusiness,
                               incomeCategories, categories, ClearAccruals(transactions))
         == GetIncomeStatement(allMonths, startYear, startMonth, endYear, endMonth, false, excludeNonBusiness,
                               incomeCategories, categories, transactions)
  {
    var months := MonthsInRange(allMonths, startYear, startMonth, endYear, endMonth);
    var fetched := Filter(transactions, BookedIn(MonthIds(months)));
    FilterClear(transactions, BookedIn(MonthIds(months)));
    var filtered := InScope(fetched, excludeNonBusiness);
    if excludeNonBusiness {
      FilterClear(fetched, IsBusiness());
    }
    assert InScope(ClearAccruals(fetched), excludeNonBusiness) == ClearAccruals(filtered);
    var inc := Filter(filtered, OfType(Income));
    var exp := Filter(filtered, OfType(Expense));
    FilterClear(filtered, OfType(Income));
    FilterClear(filtered, OfType(Expense));
    forall ic: string, m: string
      ensures IncomeCell(ClearAccruals(inc), false, m, ic) == IncomeCell(inc, false, m, ic)
      ensures ExpenseCell(ClearAccruals(exp), false, m, ic) == ExpenseCell(exp, false, m, ic)
    {
      FilterClear(inc, IncomeIn(false, m, ic));
      FilterClear(exp, ExpenseIn(false, m, ic));
      SumsClear(Filter(inc, IncomeIn(false, m, ic)));
      SumsClear(Filter(exp, ExpenseIn(false, m, ic)));
    }
    KeyedRowsAgree(IncomeHeads(incomeCategories), months,
                   (ic: string, m: string) => IncomeCell(ClearAccruals(inc), false, m, ic),
                   (ic: string, m: string) => IncomeCell(inc, false, m, ic));
    KeyedRowsAgree(CategoryHeads(SortCategories(categories)), months,
                   (c: string, m: string) => ExpenseCell(ClearAccruals(exp), false, m, c),
                   (c: string, m: string) => ExpenseCell(exp, false, m, c));
  }

  // ----- Accrual months move amounts between months, not out of the range -----

  /**
   * Without any accrual month the accrual basis is the cash basis: every
   * transaction counts in the month it is booked in either way.
   */
  lemma NoAccrualMonthsSameBasis(allMonths: seq<Month>, startYear: int, startMonth: int, endYear: int, endMonth: int,
                                 excludeNonBusiness: bool, incomeCategories: seq<IncomeCategory>, categories: seq<Category>,
                                 transactions: seq<Transaction>)
    requires forall t :: t in transactions ==> !Truthy(t.accrualMonthId)
    ensures GetIncomeStatement(allMonths, startYear, startMonth, endYear, endMonth, true, excludeNonBusiness,
                               incomeCategories, categories, transactions)
         == GetIncomeStatement(allMonths, startYear, startMonth, endYear, endMonth, false, excludeNonBusiness,
                               incomeCategories, categories, transactions)
  {
    var months := MonthsInRange(allMonths, startYear, startMonth, endYear, endMonth);
    var filtered := Scope(transactions, months, excludeNonBusiness);
    ScopeMembers(transactions, months, excludeNonBusiness);
    var inc := Filter(filtered, OfType(Income));
    var exp := Filter(filtered, OfType(Expense));
    FilterMembers(filtered, OfType(Income));
    FilterMembers(filtered, OfType(Expense));
    forall ic: string, m: string
      ensures IncomeCell(inc, true, m, ic) == IncomeCell(inc, false, m, ic)
      ensures ExpenseCell(exp, true, m, ic) == ExpenseCell(exp, false, m, ic)
    {
      FilterAgree(inc, IncomeIn(true, m, ic), IncomeIn(false, m, ic));
      FilterAgree(exp, ExpenseIn(true, m, ic), ExpenseIn(false, m, ic));
    }
    KeyedRowsAgree(IncomeHeads(incomeCategories), months,
                   (ic: string, m: string) => IncomeCell(inc, true, m, ic),
                   (ic: string, m: string) => IncomeCell(inc, false, m, ic));
    KeyedRowsAgree(CategoryHeads(SortCategories(categories)), months,
                   (c: string, m: string) => ExpenseCell(exp, true, m, c),
                   (c: string, m: string) => ExpenseCell(exp, false, m, c));
  }

  /** Once the accrual months are cleared, both bases give the same statement. */
  lemma ClearedAccrualIsCash(allMonths: seq<Month>, startYear: int, startMonth: int, endYear: int, endMonth: int,
                             excludeNonBusiness: bool, incomeCategories: seq<IncomeCategory>, categories: seq<Category>,
                             transactions: seq<Transaction>)
    ensures GetIncomeStatement(allMonths, startYear, startMonth, endYear, endMonth, true, excludeNonBusiness,
                               incomeCategories, categories, ClearAccruals(transactions))
         == GetIncomeStatement(allMonths, startYear, startMonth, endYear, endMonth, false, excludeNonBusiness,
                               incomeCategories, categories, ClearAccruals(transactions))
  {
    var cleared := ClearAccruals(transactions);
    forall t | t in cleared ensures !Truthy(t.accrualMonthId) {
      var i :| 0 <= i < |cleared| && cleared[i] == t;
    }
    NoAccrualMonthsSameBasis(allMonths, startYear, startMonth, endYear, endMonth, excludeNonBusiness,
                             incomeCategories, categories, cleared);
  }

  /**
   * Switching to the accrual basis moves a transaction from the month it is
   * booked in to the month it accrues to; when the range's months are
   * distinct and every accrual month in scope lies in the range, no row's
   * total changes, and neither do the income, expense and result totals.
   */
  lemma AccrualShiftKeepsTotals(allMonths: seq<Month>, startYear: int, startMonth: int, endYear: int, endMonth: int,
                                excludeNonBusiness: bool, incomeCategories: seq<IncomeCategory>, categories: seq<Category>,
                                transactions: seq<Transaction>)
    requires OM.Distinct(MonthIds(MonthsInRange(allMonths, startYear, startMonth, endYear, endMonth)))
    requires forall t :: t in Scope(transactions, MonthsInRange(allMonths, startYear, startMonth, endYear, endMonth), excludeNonBusiness)
                         && Truthy(t.accrualMonthId)
                         ==> t.accrualMonthId.value in MonthIds(MonthsInRange(allMonths, startYear, startMonth, endYear, endMonth))
    ensures SameTotals(GetIncomeStatement(allMonths, startYear, startMonth, endYear, endMonth, true, excludeNonBusiness,
                                          incomeCategories, categories, transactions),
                       GetIncomeStatement(allMonths, startYear, startMonth, endYear, endMonth, false, excludeNonBusiness,
                                          incomeCategories, categories, transactions))
  {
    var months := MonthsInRange(allMonths, startYear, startMonth, endYear, endMonth);
    var filtered := Scope(transactions, months, excludeNonBusiness);
    ScopeMembers(transactions, months, excludeNonBusiness);
    AssembleShiftKeepsTotals(months, incomeCategories, categories, filtered);
  }

  /** The statement over transactions whose months, on either basis, all lie in the range keeps its totals across bases. */
  lemma AssembleShiftKeepsTotals(months: seq<Month>, incomeCategories: seq<IncomeCategory>, categories: seq<Category>,
                                 filtered: seq<Transaction>)
    requires OM.Distinct(MonthIds(months))
    requires forall t, basis :: t in filtered ==> EffectiveMonthId(t, basis) in MonthIds(months)
    ensures SameTotals(Assemble(months, incomeCategories, categories, filtered, true),
                       Assemble(months, incomeCategories, categories, filtered, false))
  {
    var accrual := Assemble(months, incomeCategories, categories, filtered, true);
    var cash := Assemble(months, incomeCategories, categories, filtered, false);
    forall i | 0 <= i < |incomeCategories| ensures accrual.incomeRows[i].total == cash.incomeRows[i].total {
      IncomeRowTotal(months, incomeCategories, categories, filtered, true, i);
      IncomeRowTotal(months, incomeCategories, categories, filtered, false, i);
    }
    forall i | 0 <= i < |categories| ensures accrual.expenseRows[i].total == cash.expenseRows[i].total {
      ExpenseRowTotal(months, incomeCategories, categories, filtered, true, i);
      ExpenseRowTotal(months, incomeCategories, categories, filtered, false, i);
    }
    RowsTotalsAgree(accrual.incomeRows, cash.incomeRows);
    RowsTotalsAgree(accrual.expenseRows, cash.expenseRows);
  }

  function HasIncomeCategory(incomeCategoryId: string): Transaction -> bool {
    (t: Transaction) => t.incomeCategoryId == Some(incomeCategoryId)
  }

  function HasCategory(categoryId: string): Transaction -> bool {
    (t: Transaction) => t.categoryId == Some(categoryId)
  }

  /** An income row's total is the income of its category, whatever month each transaction counts in. */
  lemma IncomeRowTotal(months: seq<Month>, incomeCategories: seq<IncomeCategory>, categories: seq<Category>,
                       filtered: seq<Transaction>, basis: bool, i: int)
    requires OM.Distinct(MonthIds(months))
    requires forall t :: t in filtered ==> EffectiveMonthId(t, basis) in MonthIds(months)
    requires 0 <= i < |incomeCategories|
    ensures Assemble(months, incomeCategories, categories, filtered, basis).incomeRows[i].total
         == NetSum(Filter(Filter(filtered, OfType(Income)), HasIncomeCategory(incomeCategories[i].id)))
  {
    var r := Assemble(months, incomeCategories, categories, filtered, basis);
    var inc := Filter(filtered, OfType(Income));
    FilterMembers(filtered, OfType(Income));
    var ic := incomeCategories[i].id;
    var sel := (m: string) => IncomeIn(basis, m, ic);
    IncomeSectionSpec(months, incomeCategories, categories, filtered, basis);
    assert CellsAre(r.incomeRows[i], months, (m: string) => IncomeCell(inc, basis, m, ic));
    ColumnsSpread(r.incomeRows[i].months, months, inc, sel, false);
    SpreadSumSpec(MonthIds(months), inc, sel, (t: Transaction) => EffectiveMonthId(t, basis), HasIncomeCategory(ic), false);
  }

  /** An expense row's total is the expense of its category, whatever month each transaction counts in. */
  lemma ExpenseRowTotal(months: seq<Month>, incomeCategories: seq<IncomeCategory>, categories: seq<Category>,
                        filtered: seq<Transaction>, basis: bool, i: int)
    requires OM.Distinct(MonthIds(months))
    requires forall t :: t in filtered ==> EffectiveMonthId(t, basis) in MonthIds(months)
    requires 0 <= i < |categories|
    ensures Assemble(months, incomeCategories, categories, filtered, basis).expenseRows[i].total
         == AbsNetSum(Filter(Filter(filtered, OfType(Expense)), HasCategory(SortCategories(categories)[i].id)))
  {
    var r := Assemble(months, incomeCategories, categories, filtered, basis);
    var exp := Filter(filtered, OfType(Expense));
    FilterMembers(filtered, OfType(Expense));
    var sorted := SortCategories(categories);
    var c := sorted[i].id;
    var sel := (m: string) => ExpenseIn(basis, m, c);
    ExpenseSectionSpec(months, incomeCategories, categories, filtered, basis);
    assert CellsAre(r.expenseRows[i], months, (m: string) => ExpenseCell(exp, basis, m, c));
    ColumnsSpread(r.expenseRows[i].months, months, exp, sel, true);
    SpreadSumSpec(MonthIds(months), exp, sel, (t: Transaction) => EffectiveMonthId(t, basis), HasCategory(c), true);
  }

  /** Two statements whose every row, totals row and result have the same totals. */
  predicate SameTotals(a: Statement, b: Statement) {
    |a.incomeRows| == |b.incomeRows| && |a.expenseRows| == |b.expenseRows|
    && (forall i :: 0 <= i < |a.incomeRows| ==> a.incomeRows[i].total == b.incomeRows[i].total)
    && (forall i :: 0 <= i < |a.expenseRows| ==> a.expenseRows[i].total == b.expenseRows[i].total)
    && a.incomeTotal.total == b.incomeTotal.total
    && a.expenseTotal.total == b.expenseTotal.total
    && a.netResult.total == b.netResult.total
  }

  lemma {:induction false} RowsTotalsAgree(a: seq<GridRow>, b: seq<GridRow>)
    requires |a| == |b| && forall i :: 0 <= i < |a| ==> a[i].total == b[i].total
    ensures RowsTotal(a) == RowsTotal(b)
  {
    if a != [] {
      RowsTotalsAgree(a[1..], b[1..]);
    }
  }

  /** Every transaction in scope is one of the given ones, booked in a month of the range. */
  lemma ScopeMembers(transactions: seq<Transaction>, months: seq<Month>, excludeNonBusiness: bool)
    ensures forall t :: t in Scope(transactions, months, excludeNonBusiness) ==> t in transactions && t.monthId in MonthIds(months)
  {
    var fetched := Filter(transactions, BookedIn(MonthIds(months)));
    FilterMembers(transactions, BookedIn(MonthIds(months)));
    FilterMembers(fetched, IsBusiness());
  }

  lemma FilterMembers(s: seq<Transaction>, p: Transaction -> bool)
    ensures forall t :: t in Filter(s, p) ==> t in s && p(t)
  {
    var r := Filter(s, p);
    forall t | t in r ensures t in s && p(t) {
      var i :| 0 <= i < |r| && r[i] == t;
    }
  }

  /** Filtering by two predicates that agree on every element gives the same transactions. */
  lemma {:induction false} FilterAgree(s: seq<Transaction>, p: Transaction -> bool, q: Transaction -> bool)
    requires forall t :: t in s ==> p(t) == q(t)
    ensures Filter(s, p) == Filter(s, q)
  {
    if s != [] {
      assert forall t :: t in s[1..] ==> t in s;
      FilterAgree(s[1..], p, q);
    }
  }

  /** What a transaction adds to a cell: its net, or its absolute net for expenses. */
  function Weight(t: Transaction, absolute: bool): int {
    if absolute then Abs(Net(t)) else Net(t)
  }

  function Measure(txs: seq<Transaction>, absolute: bool): int {
    if absolute then AbsNetSum(txs) else NetSum(txs)
  }

  /** The sum, over the month ids, of the transactions `sel` picks for each month. */
  function SpreadSum(ids: seq<string>, txs: seq<Transaction>, sel: string -> (Transaction -> bool), absolute: bool): int {
    if ids == [] then 0 else Measure(Filter(txs, sel(ids[0])), absolute) + SpreadSum(ids[1..], txs, sel, absolute)
  }

  /** The sum, over the month ids, of what one transaction adds to the cell of each month that picks it. */
  function Hits(ids: seq<string>, t: Transaction, sel: string -> (Transaction -> bool), absolute: bool): int {
    if ids == [] then 0 else (if sel(ids[0])(t) then Weight(t, absolute) else 0) + Hits(ids[1..], t, sel, absolute)
  }

  lemma MeasureFilterCons(txs: seq<Transaction>, p: Transaction -> bool, absolute: bool)
    requires txs != []
    ensures Measure(Filter(txs, p), absolute)
         == (if p(txs[0]) then Weight(txs[0], absolute) else 0) + Measure(Filter(txs[1..], p), absolute)
  {
    if p(txs[0]) {
      assert ([txs[0]] + Filter(txs[1..], p))[1..] == Filter(txs[1..], p);
    }
  }

  lemma {:induction false} SpreadSumEmpty(ids: seq<string>, sel: string -> (Transaction -> bool), absolute: bool)
    ensures SpreadSum(ids, [], sel, absolute) == 0
  {
    if ids != [] {
      SpreadSumEmpty(ids[1..], sel, absolute);
    }
  }

  /** The first transaction adds its hits, and the rest add the rest. */
  lemma {:induction false} SpreadSumCons(ids: seq<string>, txs: seq<Transaction>, sel: string -> (Transaction -> bool), absolute: bool)
    requires txs != []
    ensures SpreadSum(ids, txs, sel, absolute) == Hits(ids, txs[0], sel, absolute) + SpreadSum(ids, txs[1..], sel, absolute)
  {
    if ids != [] {
      MeasureFilterCons(txs, sel(ids[0]), absolute);
      SpreadSumCons(ids[1..], txs, sel, absolute);
    }
  }

  /** Over distinct month ids, a transaction lands in exactly the one month its key names, if that is in the range. */
  lemma {:induction false} HitsOnce(ids: seq<string>, t: Transaction, sel: string -> (Transaction -> bool),
                                    month: Transaction -> string, keep: Transaction -> bool, absolute: bool)
    requires OM.Distinct(ids)
    requires forall m :: sel(m)(t) <==> month(t) == m && keep(t)
    ensures Hits(ids, t, sel, absolute) == if keep(t) && month(t) in ids then Weight(t, absolute) else 0
  {
    if ids != [] {
      assert OM.Distinct(ids[1..]) by {
        forall i, j | 0 <= i < j < |ids[1..]| ensures ids[1..][i] != ids[1..][j] {
          assert ids[1..][i] == ids[i + 1] && ids[1..][j] == ids[j + 1];
        }
      }
      HitsOnce(ids[1..], t, sel, month, keep, absolute);
      if month(t) == ids[0] {
        assert month(t) !in ids[1..] by {
          forall j | 0 <= j < |ids[1..]| ensures ids[1..][j] != ids[0] {
            assert ids[1..][j] == ids[j + 1];
          }
        }
      }
      assert month(t) in ids <==> month(t) == ids[0] || month(t) in ids[1..];
    }
  }

  /**
   * Spreading transactions over distinct months, each kept transaction in
   * the one month its key names, adds up to the sum of the kept ones.
   */
  lemma {:induction false} SpreadSumSpec(ids: seq<string>, txs: seq<Transaction>, sel: string -> (Transaction -> bool),
                                         month: Transaction -> string, keep: Transaction -> bool, absolute: bool)
    requires OM.Distinct(ids)
    requires forall t, m :: t in txs ==> (sel(m)(t) <==> month(t) == m && keep(t))
    requires forall t :: t in txs && keep(t) ==> month(t) in ids
    ensures SpreadSum(ids, txs, sel, absolute) == Measure(Filter(txs, keep), absolute)
  {
    if txs == [] {
      SpreadSumEmpty(ids, sel, absolute);
    } else {
      assert txs[0] in txs;
      assert forall t :: t in txs[1..] ==> t in txs;
      SpreadSumCons(ids, txs, sel, absolute);
      HitsOnce(ids, txs[0], sel, month, keep, absolute);
      SpreadSumSpec(ids, txs[1..], sel, month, keep, absolute);
      MeasureFilterCons(txs, keep, absolute);
    }
  }

  /** A row whose cells are the month-by-month sums `sel` picks adds up to their spread sum. */
  lemma {:induction false} ColumnsSpread(cols: seq<MonthColumn>, months: seq<Month>, txs: seq<Transaction>,
                                         sel: string -> (Transaction -> bool), absolute: bool)
    requires |cols| == |months|
    requires forall j :: 0 <= j < |months| ==> cols[j].amount == Measure(Filter(txs, sel(months[j].id)), absolute)
    ensures ColumnsSum(cols) == SpreadSum(MonthIds(months), txs, sel, absolute)
  {
    if months != [] {
      assert MonthIds(months)[1..] == MonthIds(months[1..]);
      ColumnsSpread(cols[1..], months[1..], txs, sel, absolute);
    }
  }

  // ----- Transactions the statement does not count -----

  /**
   * Income transactions whose income category is none of the listed ones
   * (missing, empty, or unknown) change nothing: the statement has no
   * unclassified income row.
   */
  lemma UncategorisedIncomeIgnored(months: seq<Month>, incomeCategories: seq<IncomeCategory>, categories: seq<Category>,
                                   filtered: seq<Transaction>, accrualBasis: bool, extra: seq<Transaction>)
    requires forall t :: t in extra ==> t.txType == Income
    requires forall t, i :: t in extra && 0 <= i < |incomeCategories| ==> t.incomeCategoryId != Some(incomeCategories[i].id)
    ensures Assemble(months, incomeCategories, categories, filtered + extra, accrualBasis)
         == Assemble(months, incomeCategories, categories, filtered, accrualBasis)
  {
    FilterAppend(filtered, extra, OfType(Income));
    FilterAppend(filtered, extra, OfType(Expense));
    NoneMatch(extra, OfType(Expense));
    var inc := Filter(filtered, OfType(Income));
    var incMore := Filter(extra, OfType(Income));
    assert forall t :: t in incMore ==> t in extra;
    assert Filter(filtered, OfType(Expense)) + [] == Filter(filtered, OfType(Expense));
    forall ic: string, m: string | exists i :: 0 <= i < |IncomeHeads(incomeCategories)| && IncomeHeads(incomeCategories)[i].id == ic
      ensures IncomeCell(inc + incMore, accrualBasis, m, ic) == IncomeCell(inc, accrualBasis, m, ic)
    {
      FilterAppend(inc, incMore, IncomeIn(accrualBasis, m, ic));
      NoneMatch(incMore, IncomeIn(accrualBasis, m, ic));
      assert Filter(inc, IncomeIn(accrualBasis, m, ic)) + [] == Filter(inc, IncomeIn(accrualBasis, m, ic));
    }
    KeyedRowsAgreeOn(IncomeHeads(incomeCategories), months,
                     (ic: string, m: string) => IncomeCell(inc + incMore, accrualBasis, m, ic),
                     (ic: string, m: string) => IncomeCell(inc, accrualBasis, m, ic));
  }

  /** With the non-business filter on, non-business transactions of any type change nothing. */
  lemma NonBusinessIgnored(transactions: seq<Transaction>, extra: seq<Transaction>, months: seq<Month>)
    requires forall t :: t in extra ==> !t.isBusinessExpense
    ensures Scope(transactions + extra, months, true) == Scope(transactions, months, true)
  {
    var ids := MonthIds(months);
    ScopeAppend(transactions, extra, ids, true);
    var booked := Filter(extra, BookedIn(ids));
    assert forall t :: t in booked ==> t in extra;
    NoneMatch(booked, IsBusiness());
    assert Scope(transactions, months, true) + [] == Scope(transactions, months, true);
  }

  lemma ScopeAppend(a: seq<Transaction>, b: seq<Transaction>, monthIds: seq<string>, excludeNonBusiness: bool)
    ensures InScope(Filter(a + b, BookedIn(monthIds)), excludeNonBusiness)
         == InScope(Filter(a, BookedIn(monthIds)), excludeNonBusiness) + InScope(Filter(b, BookedIn(monthIds)), excludeNonBusiness)
  {
    FilterAppend(a, b, BookedIn(monthIds));
    FilterAppend(Filter(a, BookedIn(monthIds)), Filter(b, BookedIn(monthIds)), IsBusiness());
  }

  lemma {:induction false} NoneMatch(s: seq<Transaction>, p: Transaction -> bool)
    requires forall t :: t in s ==> !p(t)
    ensures Filter(s, p) == []
  {
    if s != [] {
      assert forall t :: t in s[1..] ==> t in s;
      NoneMatch(s[1..], p);
    }
  }

  lemma {:induction false} KeyedRowsAgreeOn(heads: seq<Heading>, months: seq<Month>, f: (string, string) -> int, g: (string, string) -> int)
    requires forall a, m :: (exists i :: 0 <= i < |heads| && heads[i].id == a) ==> f(a, m) == g(a, m)
    ensures KeyedRows(heads, months, f) == KeyedRows(heads, months, g)
  {
    if heads != [] {
      var h := heads[0];
      forall i | 0 <= i < |months| ensures f(h.id, months[i].id) == g(h.id, months[i].id) {
        assert heads[0].id == h.id;
      }
      ColumnsAgree(months, (m: string) => f(h.id, m), (m: string) => g(h.id, m));
      forall a, m | exists i :: 0 <= i < |heads[1..]| && heads[1..][i].id == a ensures f(a, m) == g(a, m) {
        var i :| 0 <= i < |heads[1..]| && heads[1..][i].id == a;
        assert heads[i + 1].id == a;
      }
      KeyedRowsAgreeOn(heads[1..], months, f, g);
    }
  }
}
