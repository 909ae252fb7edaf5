/**
 * The order and the filter of the month table: drafts first, then saved rows
 * by date and row order (both reversed for newest first), and the filters by
 * type, category, description and date range, which never hide a draft.
 */
module TableOrder {
  import opened Ledger
  import opened Text
  import opened StableSort
  import opened TableRows

  datatype Direction = Ascending | Descending

  /** `dirMul`. */
  function DirMul(dir: Direction): int {
    if dir == Descending then -1 else 1
  }

  /** `row_order` for a saved row, 0 for a draft. */
  function RowOrder(row: Row): int {
    match row
    case SavedRow(t) => t.rowOrder
    case Draft(_) => 0
  }

  /** Date first, then row order, ascending. */
  function ByDate(a: Row, b: Row): int {
    var c := Compare(RowDate(a), RowDate(b));
    if c != 0 then c else RowOrder(a) - RowOrder(b)
  }

  /** The comparator of `allRows`. */
  function RowCompare(dir: Direction, a: Row, b: Row): int {
    if a.Draft? && !b.Draft? then -1
    else if !a.Draft? && b.Draft? then 1
    else ByDate(a, b) * DirMul(dir)
  }

  function Comparator(dir: Direction): (Row, Row) -> int {
    (a: Row, b: Row) => RowCompare(dir, a, b)
  }

  /** `a` comes no later than `b` by date, then row order. */
  predicate NotLater(a: Row, b: Row) {
    Less(RowDate(a), RowDate(b)) || (RowDate(a) == RowDate(b) && RowOrder(a) <= RowOrder(b))
  }

  function DraftRows(drafts: seq<DraftRow>): (rows: seq<Row>)
    ensures |rows| == |drafts| && forall i :: 0 <= i < |drafts| ==> rows[i] == Draft(drafts[i])
  {
    if drafts == [] then [] else [Draft(drafts[0])] + DraftRows(drafts[1..])
  }

  function SavedRows(txs: seq<Transaction>): (rows: seq<Row>)
    ensures |rows| == |txs| && forall i :: 0 <= i < |txs| ==> rows[i] == SavedRow(txs[i])
  {
    if txs == [] then [] else [SavedRow(txs[0])] + SavedRows(txs[1..])
  }

  /** `allRows`: the drafts, then the saved transactions, sorted by the comparator. */
  function AllRows(txs: seq<Transaction>, drafts: seq<DraftRow>, dir: Direction): seq<Row> {
    Sort(DraftRows(drafts) + SavedRows(txs), Comparator(dir))
  }

  lemma ByDateSign(a: Row, b: Row)
    ensures ByDate(a, b) < 0 <==> ByDate(b, a) > 0
    ensures ByDate(a, b) <= 0 <==> NotLater(a, b)
  {
    CompareAntisymmetric(RowDate(a), RowDate(b));
  }

  lemma ByDateTransitive(a: Row, b: Row, c: Row)
    requires ByDate(a, b) <= 0 && ByDate(b, c) <= 0
    ensures ByDate(a, c) <= 0
  {
    var da, db, dc := RowDate(a), RowDate(b), RowDate(c);
    CompareAntisymmetric(da, db);
    CompareAntisymmetric(db, dc);
    CompareAntisymmetric(da, dc);
    CompareTransitive(da, db, dc);
  }

  lemma RowCompareAntisymmetric(dir: Direction, a: Row, b: Row)
    ensures RowCompare(dir, a, b) < 0 <==> RowCompare(dir, b, a) > 0
  {
    ByDateSign(a, b);
    ByDateSign(b, a);
  }

  lemma RowCompareTransitive(dir: Direction, a: Row, b: Row, c: Row)
    requires RowCompare(dir, a, b) <= 0 && RowCompare(dir, b, c) <= 0
    ensures RowCompare(dir, a, c) <= 0
  {
    if a.Draft? == b.Draft? && b.Draft? == c.Draft? {
      if dir == Ascending {
        ByDateTransitive(a, b, c);
      } else {
        ByDateSign(a, b);
        ByDateSign(b, a);
        ByDateSign(b, c);
        ByDateSign(c, b);
        ByDateSign(a, c);
        ByDateSign(c, a);
        ByDateTransitive(c, b, a);
      }
    }
  }

  /** The comparator is consistent on any rows, in either direction. */
  lemma ComparatorConsistent(s: seq<Row>, dir: Direction)
    ensures Consistent(s, Comparator(dir))
  {
    var cmp := Comparator(dir);
    forall a, b | a in s && b in s ensures cmp(a, b) < 0 <==> cmp(b, a) > 0 {
      RowCompareAntisymmetric(dir, a, b);
    }
    forall a, b, c | a in s && b in s && c in s && cmp(a, b) <= 0 && cmp(b, c) <= 0 ensures cmp(a, c) <= 0 {
      RowCompareTransitive(dir, a, b, c);
    }
  }

  /**
   * Rows sorted by the comparator have every draft before every saved row;
   * among the drafts, and among the saved rows, they go by date, then row
   * order (0 for a draft), in the chosen direction.
   */
  lemma SortedRowsOrdered(rows: seq<Row>, dir: Direction)
    requires Sorted(rows, Comparator(dir))
    ensures forall i, j :: 0 <= i < j < |rows| && rows[j].Draft? ==> rows[i].Draft?
    ensures forall i, j :: 0 <= i < j < |rows| && rows[i].Draft? == rows[j].Draft? ==>
              if dir == Ascending then NotLater(rows[i], rows[j]) else NotLater(rows[j], rows[i])
  {
    var cmp := Comparator(dir);
    forall i, j | 0 <= i < j < |rows| && rows[j].Draft?
      ensures rows[i].Draft?
    {
      assert cmp(rows[i], rows[j]) <= 0;
    }
    forall i, j | 0 <= i < j < |rows| && rows[i].Draft? == rows[j].Draft?
      ensures if dir == Ascending then NotLater(rows[i], rows[j]) else NotLater(rows[j], rows[i])
    {
      assert cmp(rows[i], rows[j]) <= 0;
      ByDateSign(rows[i], rows[j]);
      ByDateSign(rows[j], rows[i]);
    }
  }

  /**
   * `allRows` holds every draft and every saved row once; drafts come
   * before saved rows; drafts among themselves and saved rows among
   * themselves are ordered by date, then row order (0 for every draft),
   * ascending for oldest first and descending for newest first; rows the
   * comparator ranks equal (drafts of one date, say) keep their incoming
   * order, which for drafts is the order they were added in.
   */
  lemma AllRowsSpec(txs: seq<Transaction>, drafts: seq<DraftRow>, dir: Direction)
    ensures var rows := AllRows(txs, drafts, dir);
            multiset(rows) == multiset(DraftRows(drafts) + SavedRows(txs)) &&
            (forall i, j :: 0 <= i < j < |rows| && rows[j].Draft? ==> rows[i].Draft?) &&
            (forall i, j :: 0 <= i < j < |rows| && rows[i].Draft? == rows[j].Draft? ==>
               if dir == Ascending then NotLater(rows[i], rows[j]) else NotLater(rows[j], rows[i]))
    ensures var combined := DraftRows(drafts) + SavedRows(txs);
            forall e :: e in combined ==>
              Ties(AllRows(txs, drafts, dir), Comparator(dir), e) == Ties(combined, Comparator(dir), e)
  {
    var combined := DraftRows(drafts) + SavedRows(txs);
    ComparatorConsistent(combined, dir);
    SortSpec(combined, Comparator(dir));
    SortedRowsOrdered(AllRows(txs, drafts, dir), dir);
  }

  // ----- Filters -----

  /** The filter inputs; an empty string (or None for the type) is an inactive filter. */
  datatype Filters = Filters(txType: Option<TxType>, categoryId: string, description: string,
                             dateFrom: string, dateTo: string)

  /** `hasActiveFilters`. */
  predicate HasActiveFilters(f: Filters) {
    f.txType.Some? || f.categoryId != "" || f.description != "" || f.dateFrom != "" || f.dateTo != ""
  }

  /** The predicate of `filteredRows` for one row. */
  predicate Keep(f: Filters, row: Row) {
    match row
    case Draft(_) => true
    case SavedRow(t) =>
      !(f.txType.Some? && t.txType != f.txType.value) &&
      !(f.categoryId != "" && t.categoryId != Some(f.categoryId)) &&
      !(f.description != "" && !Includes(Lower(t.description), Lower(f.description))) &&
      !(f.dateFrom != "" && Less(t.date, f.dateFrom)) &&
      !(f.dateTo != "" && Less(f.dateTo, t.date))
  }

  /** `filteredRows`: every row without an active filter, else the rows kept. */
  function FilteredRows(f: Filters, rows: seq<Row>): seq<Row> {
    if !HasActiveFilters(f) then rows else Filter(rows, (row: Row) => Keep(f, row))
  }

  /** `a <= b` on strings, the negation of `b < a`. */
  lemma NotLessIsAtMost(a: string, b: string)
    ensures !Less(b, a) <==> Compare(a, b) <= 0
  {
    CompareAntisymmetric(a, b);
  }

  /** `filter` occurs somewhere in `text`, ignoring the case of ASCII and Latin-1 letters. */
  ghost predicate OccursIgnoringCase(text: string, filter: string) {
    exists i :: OccursAt(Lower(text), Lower(filter), i)
  }

  /**
   * A saved row is kept exactly when its type and category equal the active
   * ones, the description filter occurs in its description ignoring case,
   * and its date is within the active bounds, both inclusive.
   */
  lemma KeepSaved(f: Filters, t: Transaction)
    ensures Keep(f, SavedRow(t)) <==>
              (f.txType.Some? ==> t.txType == f.txType.value) &&
              (f.categoryId != "" ==> t.categoryId == Some(f.categoryId)) &&
              (f.description != "" ==> OccursIgnoringCase(t.description, f.description)) &&
              (f.dateFrom != "" ==> Compare(f.dateFrom, t.date) <= 0) &&
              (f.dateTo != "" ==> Compare(t.date, f.dateTo) <= 0)
  {
    IncludesIffOccurs(Lower(t.description), Lower(f.description));
    NotLessIsAtMost(f.dateFrom, t.date);
    NotLessIsAtMost(t.date, f.dateTo);
  }

  /** A search for "peña" finds the description "PEÑA": accented capitals fold too. */
  lemma AccentedSearch()
    ensures OccursIgnoringCase("PEÑA", "peña")
  {
    assert Lower("PEÑA") == "peña";
    assert OccursAt(Lower("PEÑA"), Lower("peña"), 0);
  }

  /**
   * Without an active filter every row is shown; otherwise exactly the rows
   * kept are shown, every draft among them, and no row appears that was not
   * in the table.
   */
  lemma FilteredRowsSpec(f: Filters, rows: seq<Row>)
    ensures !HasActiveFilters(f) ==> FilteredRows(f, rows) == rows
    ensures forall r :: r in FilteredRows(f, rows) <==> r in rows && (!HasActiveFilters(f) || Keep(f, r))
    ensures forall r :: r in rows && r.Draft? ==> r in FilteredRows(f, rows)
  {
    if HasActiveFilters(f) {
      var p := (row: Row) => Keep(f, row);
      var out := Filter(rows, p);
      forall r | r in rows && Keep(f, r) ensures r in out {
        var i :| 0 <= i < |rows| && rows[i] == r;
        assert p(rows[i]);
      }
      forall r | r in out ensures r in rows && Keep(f, r) {
        var i :| 0 <= i < |out| && out[i] == r;
        assert p(out[i]);
      }
    }
  }
}
