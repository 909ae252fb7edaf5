/**
 * The rows of the month table: saved transactions and draft rows, the
 * pending edits of a row, the amount a row shows in an account column, the
 * row total, and a row as displayed with its pending edit merged in.
 */
module TableRows {
  import opened Ledger
  import OM = OrderedMaps

  /** A row typed in but not saved yet; its amounts are keyed by account. */
  datatype DraftRow = DraftRow(id: string, date: string, txType: TxType, description: string,
                               categoryId: Option<string>, amounts: OM.OMap<int>)

  /** A row of the table: a saved transaction with its lines, or a draft. */
  datatype Row = SavedRow(tx: Transaction) | Draft(draft: DraftRow)

  /**
   * The pending changes to a row, each field None when it is not edited
   * (`undefined`). A category edit holds None for a category cleared to `null`.
   */
  datatype RowEdit = RowEdit(date: Option<string>, txType: Option<TxType>, description: Option<string>,
                             categoryId: Option<Option<string>>, amounts: Option<OM.OMap<int>>)

  const NoEdit: RowEdit := RowEdit(None, None, None, None, None)

  /** No field of the edit is set. */
  predicate NoChange(e: RowEdit) {
    e.date.None? && e.txType.None? && e.description.None? && e.categoryId.None? && e.amounts.None?
  }

  function RowId(row: Row): string {
    match row
    case SavedRow(t) => t.id
    case Draft(d) => d.id
  }

  function RowDate(row: Row): string {
    match row
    case SavedRow(t) => t.date
    case Draft(d) => d.date
  }

  function RowType(row: Row): TxType {
    match row
    case SavedRow(t) => t.txType
    case Draft(d) => d.txType
  }

  function RowDescription(row: Row): string {
    match row
    case SavedRow(t) => t.description
    case Draft(d) => d.description
  }

  function RowCategory(row: Row): Option<string> {
    match row
    case SavedRow(t) => t.categoryId
    case Draft(d) => d.categoryId
  }

  /**
   * `getAmountForRow`: for a saved row the amount of its first line on the
   * account, for a draft the amount stored for the account; 0 when there is none.
   */
  function AmountFor(row: Row, accountId: string): int {
    match row
    case SavedRow(t) => LineAmountOr0(t.amounts, accountId)
    case Draft(d) => OM.GetOr(d.amounts, accountId, 0)
  }

  /** A saved row shows its first line on the account, or 0 when no line is on the account. */
  lemma AmountForSaved(t: Transaction, accountId: string)
    ensures (forall i :: 0 <= i < |t.amounts| ==> t.amounts[i].accountId != accountId) ==>
              AmountFor(SavedRow(t), accountId) == 0
    ensures forall i :: 0 <= i < |t.amounts| && t.amounts[i].accountId == accountId &&
                        (forall j :: 0 <= j < i ==> t.amounts[j].accountId != accountId) ==>
              AmountFor(SavedRow(t), accountId) == t.amounts[i].amount
  {
    var r := FirstLineFor(t.amounts, accountId);
    if r.Some? {
      var k :| 0 <= k < |t.amounts| && t.amounts[k].accountId == accountId && t.amounts[k].amount == r.value
               && forall j :: 0 <= j < k ==> t.amounts[j].accountId != accountId;
      forall i | 0 <= i < |t.amounts| && t.amounts[i].accountId == accountId &&
                 (forall j :: 0 <= j < i ==> t.amounts[j].accountId != accountId)
        ensures i == k
      {
      }
    }
  }

  /** `getRowTotal`: the amounts shown in the given account columns, added from the left. */
  function RowTotal(row: Row, accountIds: seq<string>): int {
    if accountIds == [] then 0
    else RowTotal(row, accountIds[..|accountIds| - 1]) + AmountFor(row, accountIds[|accountIds| - 1])
  }

  /** Two rows that show the same amount in every column have the same total. */
  lemma {:induction false} RowTotalSame(a: Row, b: Row, accountIds: seq<string>)
    requires forall k :: k in accountIds ==> AmountFor(a, k) == AmountFor(b, k)
    ensures RowTotal(a, accountIds) == RowTotal(b, accountIds)
  {
    if accountIds != [] {
      var init := accountIds[..|accountIds| - 1];
      assert forall k :: k in init ==> k in accountIds;
      RowTotalSame(a, b, init);
    }
  }

  /** A row with an amount in no column but two has as total the sum of those two amounts. */
  lemma {:induction false} RowTotalTwo(row: Row, accountIds: seq<string>, x: string, y: string)
    requires OM.Distinct(accountIds) && x != y
    requires forall k :: k in accountIds && k != x && k != y ==> AmountFor(row, k) == 0
    ensures RowTotal(row, accountIds) ==
              (if x in accountIds then AmountFor(row, x) else 0) + (if y in accountIds then AmountFor(row, y) else 0)
  {
    if accountIds != [] {
      var init, last := accountIds[..|accountIds| - 1], accountIds[|accountIds| - 1];
      assert accountIds == init + [last];
      assert OM.Distinct(init);
      assert last !in init;
      assert forall k :: k in init ==> k in accountIds;
      RowTotalTwo(row, init, x, y);
    }
  }

  /** The lines `Object.entries` gives for the keys of an amounts map, in key order. */
  function EntryLines(keys: seq<string>, values: map<string, int>): (lines: seq<AmountLine>)
    ensures forall i :: 0 <= i < |lines| ==> lines[i].accountId in keys && lines[i].accountId in values
                                             && lines[i].amount == values[lines[i].accountId]
  {
    if keys == [] then []
    else
      var rest := EntryLines(keys[1..], values);
      (if keys[0] in values then [AmountLine(keys[0], values[keys[0]])] else []) + rest
  }

  /** Over distinct keys, the entry lines show each key's amount, and 0 for any other account. */
  lemma {:induction false} EntryLinesAmount(keys: seq<string>, values: map<string, int>, accountId: string)
    requires OM.Distinct(keys) && forall k :: k in keys ==> k in values
    ensures LineAmountOr0(EntryLines(keys, values), accountId) ==
              (if accountId in keys then values[accountId] else 0)
  {
    if keys != [] {
      OM.DistinctTail(keys);
      EntryLinesAmount(keys[1..], values, accountId);
      var line := AmountLine(keys[0], values[keys[0]]);
      var rest := EntryLines(keys[1..], values);
      assert EntryLines(keys, values) == [line] + rest;
      assert ([line] + rest)[1..] == rest;
      assert keys == [keys[0]] + keys[1..];
    }
  }

  /** `edit.x !== undefined ? edit.x : row.x`. */
  function Or<T>(o: Option<T>, d: T): T {
    if o.Some? then o.value else d
  }

  /**
   * `mergeRow`: the row as displayed with its pending edit. Without an edit,
   * or with an edit that sets nothing, the row itself; otherwise each field
   * the edit sets replaces the row's, and edited amounts replace a saved
   * row's lines entirely.
   */
  function MergeRow(row: Row, edit: Option<RowEdit>): Row {
    if edit.None? || NoChange(edit.value) then row
    else
      var e := edit.value;
      match row
      case SavedRow(t) =>
        SavedRow(t.(date := Or(e.date, t.date), txType := Or(e.txType, t.txType),
                    description := Or(e.description, t.description), categoryId := Or(e.categoryId, t.categoryId),
                    amounts := if e.amounts.Some? then EntryLines(e.amounts.value.keys, e.amounts.value.values)
                               else t.amounts))
      case Draft(d) =>
        Draft(d.(date := Or(e.date, d.date), txType := Or(e.txType, d.txType),
                 description := Or(e.description, d.description), categoryId := Or(e.categoryId, d.categoryId),
                 amounts := Or(e.amounts, d.amounts)))
  }

  /**
   * Merging keeps the row's id and kind; each field the edit sets is the
   * edit's, and every other field is the row's.
   */
  lemma MergeFields(row: Row, edit: Option<RowEdit>)
    ensures var m := MergeRow(row, edit);
            RowId(m) == RowId(row) && m.Draft? == row.Draft? &&
            (edit.None? ==> m == row) &&
            (edit.Some? ==>
               RowDate(m) == Or(edit.value.date, RowDate(row)) &&
               RowType(m) == Or(edit.value.txType, RowType(row)) &&
               RowDescription(m) == Or(edit.value.description, RowDescription(row)) &&
               RowCategory(m) == Or(edit.value.categoryId, RowCategory(row)) &&
               (NoChange(edit.value) ==> m == row))
  {
  }

  /**
   * After merging, every account column shows the edited amount (0 for an
   * account the edit leaves out) when the edit sets amounts, and the row's
   * own amount otherwise.
   */
  lemma MergeAmounts(row: Row, e: RowEdit, accountId: string)
    requires e.amounts.Some? ==> OM.Valid(e.amounts.value)
    ensures AmountFor(MergeRow(row, Some(e)), accountId) ==
              if e.amounts.Some? then OM.GetOr(e.amounts.value, accountId, 0) else AmountFor(row, accountId)
  {
    if e.amounts.Some? && row.SavedRow? {
      var m := e.amounts.value;
      EntryLinesAmount(m.keys, m.values, accountId);
    }
  }
}
