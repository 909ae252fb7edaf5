/**
 * The month-by-row grids the reports return: every row has one cell per
 * month of the range and a total, and a totals line holds, for each month,
 * the sum over the rows of the cell a row has for that month, looked up by
 * month id as `row.months.find((c) => c.month_id === m.id)?.amount ?? 0`.
 */
module Grid {
  import opened Ledger

  datatype MonthColumn = MonthColumn(monthId: string, monthLabel: string, amount: int)

  /** A report row: its key (an account or category id, or none), its name, its cells and its total. */
  datatype GridRow = GridRow(key: Option<string>, name: string, months: seq<MonthColumn>, total: int)

  /** `months.map((m) => ({ month_id: m.id, label: m.label, amount: cell(m.id) }))`. */
  function Columns(months: seq<Month>, cell: string -> int): (r: seq<MonthColumn>)
    ensures |r| == |months|
    ensures forall i :: 0 <= i < |months| ==> r[i] == MonthColumn(months[i].id, months[i].monthLabel, cell(months[i].id))
  {
    if months == [] then []
    else [MonthColumn(months[0].id, months[0].monthLabel, cell(months[0].id))] + Columns(months[1..], cell)
  }

  /** `cols.reduce((s, c) => s + c.amount, 0)`. */
  function ColumnsSum(cols: seq<MonthColumn>): int {
    if cols == [] then 0 else cols[0].amount + ColumnsSum(cols[1..])
  }

  /** The amount of the first cell for `monthId`, or 0. */
  function ColumnFind(cols: seq<MonthColumn>, monthId: string): int {
    if cols == [] then 0
    else if cols[0].monthId == monthId then cols[0].amount
    else ColumnFind(cols[1..], monthId)
  }

  /** A row whose cells are `cell` of each month and whose total is their sum. */
  function Row(key: Option<string>, name: string, months: seq<Month>, cell: string -> int): GridRow {
    var cols := Columns(months, cell);
    GridRow(key, name, cols, ColumnsSum(cols))
  }

  /**
   * `row` has one cell per month, in month order, each holding what a lookup
   * of that month's id in the row finds, and its total is the sum of its cells.
   */
  ghost predicate RowOver(row: GridRow, months: seq<Month>) {
    row.months == Columns(months, (id: string) => ColumnFind(row.months, id))
    && row.total == ColumnsSum(row.months)
  }

  /** Looking up any month of the range in columns built over the range finds that month's cell. */
  lemma {:induction false} FindOnColumns(months: seq<Month>, cell: string -> int, j: int)
    requires 0 <= j < |months|
    ensures ColumnFind(Columns(months, cell), months[j].id) == cell(months[j].id)
  {
    var cols := Columns(months, cell);
    var id := months[j].id;
    if months[0].id != id {
      assert cols[1..] == Columns(months[1..], cell);
      assert months[1..][j - 1] == months[j];
      FindOnColumns(months[1..], cell, j - 1);
    }
  }

  /** Columns built from two cell functions that agree on the range's ids are equal. */
  lemma ColumnsAgree(months: seq<Month>, f: string -> int, g: string -> int)
    requires forall i :: 0 <= i < |months| ==> f(months[i].id) == g(months[i].id)
    ensures Columns(months, f) == Columns(months, g)
  {
  }

  lemma RowIsOver(key: Option<string>, name: string, months: seq<Month>, cell: string -> int)
    ensures RowOver(Row(key, name, months, cell), months)
  {
    var cols := Columns(months, cell);
    forall i | 0 <= i < |months| ensures cell(months[i].id) == ColumnFind(cols, months[i].id) {
      FindOnColumns(months, cell, i);
    }
    ColumnsAgree(months, cell, (id: string) => ColumnFind(cols, id));
  }

  /**
   * `row` has one cell per month of the range, in range order, holding
   * `cell` of that month's id, and its total is the sum of its cells.
   */
  ghost predicate CellsAre(row: GridRow, months: seq<Month>, cell: string -> int) {
    |row.months| == |months|
    && (forall j :: 0 <= j < |months| ==>
          row.months[j] == MonthColumn(months[j].id, months[j].monthLabel, cell(months[j].id)))
    && row.total == ColumnsSum(row.months)
  }

  /** A row built by `Row` has exactly the cells it was built from, and is a row over the range. */
  lemma RowCells(key: Option<string>, name: string, months: seq<Month>, cell: string -> int)
    ensures CellsAre(Row(key, name, months, cell), months, cell)
    ensures RowOver(Row(key, name, months, cell), months)
  {
    RowIsOver(key, name, months, cell);
  }

  /**
   * A totals line over rows that are over the range: one cell per month,
   * each the sum of the rows' cells for that month, and the line sums to the
   * sum of the row totals.
   */
  ghost predicate TotalsLine(cols: seq<MonthColumn>, months: seq<Month>, rows: seq<GridRow>) {
    |cols| == |months|
    && (forall j :: 0 <= j < |months| ==>
          (forall r :: r in rows ==> j < |r.months|)
          && cols[j].monthId == months[j].id
          && cols[j].amount == SumAt(rows, j))
    && ColumnsSum(cols) == RowsTotal(rows)
  }

  /** What a report row is keyed and labelled by: an account, a category or an income category. */
  datatype Heading = Heading(id: string, name: string)

  /**
   * One row per heading, in heading order (`heads.map(...)`): the row of
   * heading `h` holds `cell(h.id, m.id)` for each month `m` of the range.
   */
  function KeyedRows(heads: seq<Heading>, months: seq<Month>, cell: (string, string) -> int): (rows: seq<GridRow>)
    ensures |rows| == |heads|
    ensures forall i :: 0 <= i < |heads| ==>
              rows[i].key == Some(heads[i].id) && rows[i].name == heads[i].name
              && RowOver(rows[i], months)
              && CellsAre(rows[i], months, (m: string) => cell(heads[i].id, m))
  {
    if heads == [] then []
    else
      var h := heads[0];
      RowCells(Some(h.id), h.name, months, (m: string) => cell(h.id, m));
      [Row(Some(h.id), h.name, months, (m: string) => cell(h.id, m))] + KeyedRows(heads[1..], months, cell)
  }

  /** The sum over the headings of their cells for one month. */
  function HeadsSum(heads: seq<Heading>, monthId: string, cell: (string, string) -> int): int {
    if heads == [] then 0 else cell(heads[0].id, monthId) + HeadsSum(heads[1..], monthId, cell)
  }

  /** The totals line of keyed rows adds, for each month, the headings' cells for it. */
  lemma {:induction false} KeyedRowsSumAt(heads: seq<Heading>, months: seq<Month>, cell: (string, string) -> int, j: nat)
    requires j < |months|
    ensures forall r :: r in KeyedRows(heads, months, cell) ==> j < |r.months|
    ensures SumAt(KeyedRows(heads, months, cell), j) == HeadsSum(heads, months[j].id, cell)
  {
    KeyedRowsReach(heads, months, cell, j);
    if heads != [] {
      KeyedRowsSumAt(heads[1..], months, cell, j);
      KeyedRowsSumStep(heads, months, cell, j);
    }
  }

  lemma KeyedRowsReach(heads: seq<Heading>, months: seq<Month>, cell: (string, string) -> int, j: nat)
    requires j < |months|
    ensures forall r :: r in KeyedRows(heads, months, cell) ==> j < |r.months|
  {
    var rows := KeyedRows(heads, months, cell);
    forall r | r in rows ensures j < |r.months| {
      var i :| 0 <= i < |rows| && rows[i] == r;
    }
  }

  /** The first keyed row adds its heading's cell to the sum of the others. */
  lemma KeyedRowsSumStep(heads: seq<Heading>, months: seq<Month>, cell: (string, string) -> int, j: nat)
    requires heads != [] && j < |months|
    requires forall r :: r in KeyedRows(heads, months, cell) ==> j < |r.months|
    requires forall r :: r in KeyedRows(heads[1..], months, cell) ==> j < |r.months|
    ensures SumAt(KeyedRows(heads, months, cell), j)
         == cell(heads[0].id, months[j].id) + SumAt(KeyedRows(heads[1..], months, cell), j)
  {
    var rows := KeyedRows(heads, months, cell);
    assert rows[1..] == KeyedRows(heads[1..], months, cell);
    assert rows[0].months[j].amount == cell(heads[0].id, months[j].id) by {
      assert CellsAre(rows[0], months, (m: string) => cell(heads[0].id, m));
    }
  }

  function AccountHeads(accounts: seq<Account>): (h: seq<Heading>)
    ensures |h| == |accounts|
    ensures forall i :: 0 <= i < |accounts| ==> h[i] == Heading(accounts[i].id, accounts[i].name)
  {
    seq(|accounts|, i requires 0 <= i < |accounts| => Heading(accounts[i].id, accounts[i].name))
  }

  function CategoryHeads(categories: seq<Category>): (h: seq<Heading>)
    ensures |h| == |categories|
    ensures forall i :: 0 <= i < |categories| ==> h[i] == Heading(categories[i].id, categories[i].name)
  {
    seq(|categories|, i requires 0 <= i < |categories| => Heading(categories[i].id, categories[i].name))
  }

  function IncomeHeads(incomeCategories: seq<IncomeCategory>): (h: seq<Heading>)
    ensures |h| == |incomeCategories|
    ensures forall i :: 0 <= i < |incomeCategories| ==> h[i] == Heading(incomeCategories[i].id, incomeCategories[i].name)
  {
    seq(|incomeCategories|, i requires 0 <= i < |incomeCategories| => Heading(incomeCategories[i].id, incomeCategories[i].name))
  }

  /** The sum, over the rows, of each row's cell for `monthId`. */
  function CellSum(rows: seq<GridRow>, monthId: string): int {
    if rows == [] then 0 else ColumnFind(rows[0].months, monthId) + CellSum(rows[1..], monthId)
  }

  /** A totals line: for each month, the sum of the rows' cells for it. */
  function TotalColumns(months: seq<Month>, rows: seq<GridRow>): seq<MonthColumn> {
    Columns(months, (id: string) => CellSum(rows, id))
  }

  /** `rows.reduce((s, row) => s + row.total, 0)`. */
  function RowsTotal(rows: seq<GridRow>): int {
    if rows == [] then 0 else rows[0].total + RowsTotal(rows[1..])
  }

  /** The sum over the rows of their cells in position `j`. */
  function SumAt(rows: seq<GridRow>, j: nat): int
    requires forall r :: r in rows ==> j < |r.months|
  {
    if rows == [] then 0 else rows[0].months[j].amount + SumAt(rows[1..], j)
  }

  lemma {:induction false} CellSumAt(months: seq<Month>, rows: seq<GridRow>, j: nat)
    requires j < |months|
    requires forall r :: r in rows ==> RowOver(r, months)
    ensures forall r :: r in rows ==> j < |r.months|
    ensures CellSum(rows, months[j].id) == SumAt(rows, j)
  {
    if rows != [] {
      assert forall r :: r in rows[1..] ==> r in rows;
      CellSumAt(months, rows[1..], j);
      assert rows[0] in rows;
    }
  }

  /** Each cell of a totals line is the sum of the rows' cells in that position. */
  lemma TotalColumnsAt(months: seq<Month>, rows: seq<GridRow>, j: nat)
    requires j < |months|
    requires forall r :: r in rows ==> RowOver(r, months)
    ensures forall r :: r in rows ==> j < |r.months|
    ensures |TotalColumns(months, rows)| == |months|
    ensures TotalColumns(months, rows)[j].monthId == months[j].id
    ensures TotalColumns(months, rows)[j].amount == SumAt(rows, j)
  {
    CellSumAt(months, rows, j);
  }

  /** One month's total of keyed rows adds the headings' cells for that month. */
  lemma KeyedTotalAt(heads: seq<Heading>, months: seq<Month>, cell: (string, string) -> int, j: nat)
    requires j < |months|
    ensures |TotalColumns(months, KeyedRows(heads, months, cell))| == |months|
    ensures TotalColumns(months, KeyedRows(heads, months, cell))[j].amount == HeadsSum(heads, months[j].id, cell)
  {
    var rows := KeyedRows(heads, months, cell);
    forall r | r in rows ensures RowOver(r, months) {
      var i :| 0 <= i < |rows| && rows[i] == r;
    }
    TotalColumnsAt(months, rows, j);
    KeyedRowsSumAt(heads, months, cell, j);
  }

  lemma {:induction false} ColumnsAdd(months: seq<Month>, f: string -> int, g: string -> int, h: string -> int)
    requires forall id :: h(id) == f(id) + g(id)
    ensures ColumnsSum(Columns(months, h)) == ColumnsSum(Columns(months, f)) + ColumnsSum(Columns(months, g))
  {
    if months != [] {
      assert Columns(months, h)[1..] == Columns(months[1..], h);
      assert Columns(months, f)[1..] == Columns(months[1..], f);
      assert Columns(months, g)[1..] == Columns(months[1..], g);
      ColumnsAdd(months[1..], f, g, h);
    }
  }

  lemma {:induction false} ColumnsZero(months: seq<Month>, f: string -> int)
    requires forall id :: f(id) == 0
    ensures ColumnsSum(Columns(months, f)) == 0
  {
    if months != [] {
      assert Columns(months, f)[1..] == Columns(months[1..], f);
      ColumnsZero(months[1..], f);
    }
  }

  /** Summing a totals line across the months gives the sum of the row totals. */
  lemma {:induction false} TotalColumnsSum(months: seq<Month>, rows: seq<GridRow>)
    requires forall r :: r in rows ==> RowOver(r, months)
    ensures ColumnsSum(TotalColumns(months, rows)) == RowsTotal(rows)
  {
    if rows == [] {
      ColumnsZero(months, (id: string) => CellSum(rows, id));
    } else {
      assert forall r :: r in rows[1..] ==> r in rows;
      assert rows[0] in rows;
      TotalColumnsSum(months, rows[1..]);
      var head := (id: string) => ColumnFind(rows[0].months, id);
      var tail := (id: string) => CellSum(rows[1..], id);
      ColumnsAdd(months, head, tail, (id: string) => CellSum(rows, id));
      assert Columns(months, head) == rows[0].months;
    }
  }

  /** A totals line is itself a row over the range. */
  lemma TotalColumnsOver(key: Option<string>, name: string, months: seq<Month>, rows: seq<GridRow>)
    ensures RowOver(Row(key, name, months, (id: string) => CellSum(rows, id)), months)
    ensures Row(key, name, months, (id: string) => CellSum(rows, id)).months == TotalColumns(months, rows)
  {
    RowIsOver(key, name, months, (id: string) => CellSum(rows, id));
  }

  lemma {:induction false} RowsTotalAppend(a: seq<GridRow>, b: seq<GridRow>)
    ensures RowsTotal(a + b) == RowsTotal(a) + RowsTotal(b)
  {
    if a == [] {
      assert a + b == b;
    } else {
      assert (a + b)[1..] == a[1..] + b;
      RowsTotalAppend(a[1..], b);
    }
  }

  /** A column of differences sums to the difference of the sums. */
  lemma ColumnsSub(months: seq<Month>, f: string -> int, g: string -> int, h: string -> int)
    requires forall id :: h(id) == f(id) - g(id)
    ensures ColumnsSum(Columns(months, h)) == ColumnsSum(Columns(months, f)) - ColumnsSum(Columns(months, g))
  {
    ColumnsAdd(months, h, g, f);
  }

  lemma {:induction false} CellSumAppend(a: seq<GridRow>, b: seq<GridRow>, monthId: string)
    ensures CellSum(a + b, monthId) == CellSum(a, monthId) + CellSum(b, monthId)
  {
    if a == [] {
      assert a + b == b;
    } else {
      assert (a + b)[1..] == a[1..] + b;
      CellSumAppend(a[1..], b, monthId);
    }
  }

  /** Every cell of every row is at least zero. */
  predicate NonNegativeRows(rows: seq<GridRow>) {
    forall r, c :: r in rows && c in r.months ==> c.amount >= 0
  }

  /** A row whose cells come from a function that is never negative has no negative cell. */
  lemma RowNonNegative(row: GridRow, months: seq<Month>, cell: string -> int)
    requires CellsAre(row, months, cell) && forall m :: cell(m) >= 0
    ensures forall c :: c in row.months ==> c.amount >= 0
  {
    forall c | c in row.months ensures c.amount >= 0 {
      var j :| 0 <= j < |row.months| && row.months[j] == c;
      assert c.amount == cell(months[j].id);
    }
  }

  /** Rows keyed by headings over a cell function that is never negative have no negative cell. */
  lemma KeyedRowsNonNegative(heads: seq<Heading>, months: seq<Month>, cell: (string, string) -> int)
    requires forall h, m :: cell(h, m) >= 0
    ensures NonNegativeRows(KeyedRows(heads, months, cell))
  {
    var rows := KeyedRows(heads, months, cell);
    forall r | r in rows ensures forall c :: c in r.months ==> c.amount >= 0 {
      var i :| 0 <= i < |rows| && rows[i] == r;
      RowNonNegative(r, months, (m: string) => cell(heads[i].id, m));
    }
  }

  lemma {:induction false} ColumnFindNonNegative(cols: seq<MonthColumn>, monthId: string)
    requires forall c :: c in cols ==> c.amount >= 0
    ensures ColumnFind(cols, monthId) >= 0
  {
    if cols != [] {
      assert cols[0] in cols;
      assert forall c :: c in cols[1..] ==> c in cols;
      ColumnFindNonNegative(cols[1..], monthId);
    }
  }

  /** A totals line over rows of non-negative cells has non-negative cells. */
  lemma {:induction false} CellSumNonNegative(rows: seq<GridRow>, monthId: string)
    requires NonNegativeRows(rows)
    ensures CellSum(rows, monthId) >= 0
  {
    if rows != [] {
      assert rows[0] in rows;
      assert forall r :: r in rows[1..] ==> r in rows;
      ColumnFindNonNegative(rows[0].months, monthId);
      CellSumNonNegative(rows[1..], monthId);
    }
  }

  /**
   * A totals line over rows that are all over the range: one cell per month,
   * each the sum of the rows' cells in that position, summing to the sum of
   * the row totals.
   */
  lemma TotalsLineSpec(months: seq<Month>, rows: seq<GridRow>)
    requires forall r :: r in rows ==> RowOver(r, months)
    ensures |TotalColumns(months, rows)| == |months|
    ensures forall j :: 0 <= j < |months| ==>
              (forall r :: r in rows ==> j < |r.months|)
              && TotalColumns(months, rows)[j].monthId == months[j].id
              && TotalColumns(months, rows)[j].amount == SumAt(rows, j)
    ensures ColumnsSum(TotalColumns(months, rows)) == RowsTotal(rows)
  {
    forall j | 0 <= j < |months|
      ensures (forall r :: r in rows ==> j < |r.months|)
              && TotalColumns(months, rows)[j].monthId == months[j].id
              && TotalColumns(months, rows)[j].amount == SumAt(rows, j)
    {
      TotalColumnsAt(months, rows, j);
    }
    TotalColumnsSum(months, rows);
  }

  /** The totals line of any rows that are each over the range. */
  lemma TotalsOfRows(months: seq<Month>, rows: seq<GridRow>)
    requires forall i :: 0 <= i < |rows| ==> RowOver(rows[i], months)
    ensures TotalsLine(TotalColumns(months, rows), months, rows)
  {
    assert forall r :: r in rows ==> RowOver(r, months) by {
      forall r | r in rows ensures RowOver(r, months) {
        var i :| 0 <= i < |rows| && rows[i] == r;
      }
    }
    TotalsLineSpec(months, rows);
  }

  // ----- The result line -----

  /** Income minus expense, month by month, each looked up by month id. */
  function ResultColumns(months: seq<Month>, incomeTotal: seq<MonthColumn>, expenseTotal: seq<MonthColumn>): seq<MonthColumn> {
    Columns(months, (m: string) => ColumnFind(incomeTotal, m) - ColumnFind(expenseTotal, m))
  }

  /** The result line is income minus expense in each month, and so is its sum. */
  ghost predicate ResultSection(months: seq<Month>, result: seq<MonthColumn>,
                                incomeTotal: seq<MonthColumn>, expenseTotal: seq<MonthColumn>) {
    |result| == |months| == |incomeTotal| == |expenseTotal|
    && (forall j :: 0 <= j < |months| ==>
          result[j].monthId == months[j].id
          && result[j].amount == incomeTotal[j].amount - expenseTotal[j].amount)
    && ColumnsSum(result) == ColumnsSum(incomeTotal) - ColumnsSum(expenseTotal)
  }

  lemma ResultSpec(months: seq<Month>, incomeRows: seq<GridRow>, expenseRows: seq<GridRow>)
    ensures var incomeTotal := TotalColumns(months, incomeRows);
            var expenseTotal := TotalColumns(months, expenseRows);
            ResultSection(months, ResultColumns(months, incomeTotal, expenseTotal), incomeTotal, expenseTotal)
  {
    var incomeTotal := TotalColumns(months, incomeRows);
    var expenseTotal := TotalColumns(months, expenseRows);
    var inc := (m: string) => ColumnFind(incomeTotal, m);
    var exp := (m: string) => ColumnFind(expenseTotal, m);
    forall j | 0 <= j < |months| ensures incomeTotal[j].amount == inc(months[j].id) && expenseTotal[j].amount == exp(months[j].id) {
      FindOnColumns(months, (m: string) => CellSum(incomeRows, m), j);
      FindOnColumns(months, (m: string) => CellSum(expenseRows, m), j);
    }
    ColumnsSub(months, inc, exp, (m: string) => ColumnFind(incomeTotal, m) - ColumnFind(expenseTotal, m));
    assert Columns(months, inc) == incomeTotal;
    assert Columns(months, exp) == expenseTotal;
  }

  /** Keyed rows built from cell functions that agree everywhere are equal. */
  lemma {:induction false} KeyedRowsAgree(heads: seq<Heading>, months: seq<Month>, f: (string, string) -> int, g: (string, string) -> int)
    requires forall a, m :: f(a, m) == g(a, m)
    ensures KeyedRows(heads, months, f) == KeyedRows(heads, months, g)
  {
    if heads != [] {
      var h := heads[0];
      forall i | 0 <= i < |months| ensures f(h.id, months[i].id) == g(h.id, months[i].id) {
      }
      ColumnsAgree(months, (m: string) => f(h.id, m), (m: string) => g(h.id, m));
      KeyedRowsAgree(heads[1..], months, f, g);
    }
  }
}
