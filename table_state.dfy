/**
 * The state of the month table and the handlers that change it: the pending
 * edits of saved rows, the draft rows, the row being edited, the message of
 * a refused save, the transfer dialog, the amount inputs typed so far, and
 * the sort and filter settings.
 */
module TableState {
  import opened Ledger
  import opened Numbers
  import opened TableRows
  import opened TableOrder
  import opened TableSave
  import OM = OrderedMaps

  /** `accounts.map((a) => a.id)`: the account columns, in order. */
  function AccountIds(accounts: seq<Account>): (ids: seq<string>)
    ensures |ids| == |accounts| && forall i :: 0 <= i < |accounts| ==> ids[i] == accounts[i].id
  {
    if accounts == [] then [] else [accounts[0].id] + AccountIds(accounts[1..])
  }

  // ----- setEdit -----

  /** `{ ...prev, ...update }` for one field: the update's value where it sets one. */
  function Over<T>(update: Option<T>, prev: Option<T>): Option<T> {
    if update.Some? then update else prev
  }

  /** The edit `setEdit` forms: every field the update sets, over the row's previous edit. */
  function Combine(prev: RowEdit, update: RowEdit): RowEdit {
    RowEdit(Over(update.date, prev.date), Over(update.txType, prev.txType), Over(update.description, prev.description),
            Over(update.categoryId, prev.categoryId), Over(update.amounts, prev.amounts))
  }

  /** The pending edits after `setEdit(id, update)`: the combined edit, or no entry when it sets nothing. */
  function EditsAfter(edits: OM.OMap<RowEdit>, id: string, update: RowEdit): OM.OMap<RowEdit>
    requires OM.Valid(edits)
  {
    var next := Combine(OM.GetOr(edits, id, NoEdit), update);
    if NoChange(next) then OM.Delete(edits, id) else OM.Put(edits, id, next)
  }

  /** Stored edits set something and hold valid amount maps. */
  ghost predicate EditsWellFormed(edits: OM.OMap<RowEdit>) {
    OM.Valid(edits) && forall k :: k in edits.values ==> ValidEdit(edits.values[k]) && !NoChange(edits.values[k])
  }

  /**
   * `setEdit` touches only the row's own entry. The row keeps an entry
   * exactly when the update or its previous edit sets something; each field
   * the update sets takes the update's value, and every other field keeps
   * the previous edit's.
   */
  lemma EditsAfterSpec(edits: OM.OMap<RowEdit>, id: string, update: RowEdit)
    requires OM.Valid(edits)
    ensures var r, prev := EditsAfter(edits, id, update), OM.GetOr(edits, id, NoEdit);
            OM.Valid(r) &&
            (forall k :: k != id ==> OM.Get(r, k) == OM.Get(edits, k)) &&
            (id in r.values <==> !NoChange(update) || !NoChange(prev)) &&
            (id in r.values ==>
               (update.date.Some? ==> r.values[id].date == update.date) &&
               (update.date.None? ==> r.values[id].date == prev.date) &&
               (update.txType.Some? ==> r.values[id].txType == update.txType) &&
               (update.txType.None? ==> r.values[id].txType == prev.txType) &&
               (update.description.Some? ==> r.values[id].description == update.description) &&
               (update.description.None? ==> r.values[id].description == prev.description) &&
               (update.categoryId.Some? ==> r.values[id].categoryId == update.categoryId) &&
               (update.categoryId.None? ==> r.values[id].categoryId == prev.categoryId) &&
               (update.amounts.Some? ==> r.values[id].amounts == update.amounts) &&
               (update.amounts.None? ==> r.values[id].amounts == prev.amounts))
  {
  }

  /** Well-formed edits stay well formed under an update with valid amounts. */
  lemma EditsAfterWellFormed(edits: OM.OMap<RowEdit>, id: string, update: RowEdit)
    requires EditsWellFormed(edits) && ValidEdit(update)
    ensures EditsWellFormed(EditsAfter(edits, id, update))
  {
  }

  /** Applying the same update twice is applying it once. */
  lemma EditsAfterIdempotent(edits: OM.OMap<RowEdit>, id: string, update: RowEdit)
    requires OM.Valid(edits)
    ensures EditsAfter(EditsAfter(edits, id, update), id, update) == EditsAfter(edits, id, update)
  {
    var once := EditsAfter(edits, id, update);
    var next := Combine(OM.GetOr(edits, id, NoEdit), update);
    assert Combine(next, update) == next;
    if NoChange(next) {
      assert OM.GetOr(once, id, NoEdit) == NoEdit;
      assert once.keys == OM.RemoveKey(once.keys, id);
      assert OM.Delete(once, id) == once;
    } else {
      assert OM.GetOr(once, id, NoEdit) == next;
    }
  }

  /**
   * The row as displayed after `setEdit` is the row merged with the
   * combined edit, whether or not an entry is kept for it.
   */
  lemma DisplayAfterEdit(edits: OM.OMap<RowEdit>, row: Row, update: RowEdit)
    requires OM.Valid(edits)
    ensures MergeRow(row, OM.Get(EditsAfter(edits, RowId(row), update), RowId(row))) ==
              MergeRow(row, Some(Combine(OM.GetOr(edits, RowId(row), NoEdit), update)))
  {
  }

  // ----- Drafts -----

  /** `draftRows.filter((r) => r.id !== id)`. */
  function RemoveDraft(drafts: seq<DraftRow>, id: string): (r: seq<DraftRow>)
    ensures forall d :: d in r <==> d in drafts && d.id != id
    ensures |r| <= |drafts|
    ensures (forall i :: 0 <= i < |drafts| ==> drafts[i].id != id) ==> r == drafts
  {
    if drafts == [] then []
    else (if drafts[0].id != id then [drafts[0]] else []) + RemoveDraft(drafts[1..], id)
  }

  /** `{ ...r, ...fields }`: a draft with the fields the edit sets replaced. */
  function ApplyEdit(d: DraftRow, e: RowEdit): DraftRow {
    d.(date := Or(e.date, d.date), txType := Or(e.txType, d.txType), description := Or(e.description, d.description),
       categoryId := Or(e.categoryId, d.categoryId), amounts := Or(e.amounts, d.amounts))
  }

  /** Writing fields into a draft shows what displaying the draft with the same fields as an edit would show. */
  lemma ApplyEditDisplays(d: DraftRow, e: RowEdit)
    ensures Draft(ApplyEdit(d, e)) == MergeRow(Draft(d), Some(e))
  {
  }

  /** The ways a handler rewrites a draft: fields written in, a new type, or one column's amount. */
  datatype DraftChange = Fields(edit: RowEdit) | Retype(t: TxType) | SetAmount(accountId: string, v: int)

  predicate ValidChange(c: DraftChange) {
    c.Fields? ==> ValidEdit(c.edit)
  }

  predicate DraftsValid(drafts: seq<DraftRow>) {
    forall i :: 0 <= i < |drafts| ==> OM.Valid(drafts[i].amounts)
  }

  /**
   * One draft rewritten: `{ ...r, ...fields }`; for a new type other than
   * transfer, the type and the column amounts normalised; for an amount
   * input, `{ ...r, amounts: { ...r.amounts, [accId]: value } }`.
   */
  function ChangeDraft(d: DraftRow, c: DraftChange, accountIds: seq<string>): (r: DraftRow)
    requires OM.Valid(d.amounts) && ValidChange(c)
    ensures OM.Valid(r.amounts) && r.id == d.id
  {
    match c
    case Fields(e) => ApplyEdit(d, e)
    case Retype(t) => d.(txType := t, amounts := NormalizedAmounts(d.amounts, accountIds, t))
    case SetAmount(k, v) => d.(amounts := OM.Put(d.amounts, k, v))
  }

  /** `prev.map((r) => r.id === id ? change(r) : r)`. */
  function ChangeDrafts(drafts: seq<DraftRow>, id: string, c: DraftChange, accountIds: seq<string>): (r: seq<DraftRow>)
    requires DraftsValid(drafts) && ValidChange(c)
    ensures |r| == |drafts| && DraftsValid(r)
    ensures forall i :: 0 <= i < |drafts| ==>
              r[i] == if drafts[i].id == id then ChangeDraft(drafts[i], c, accountIds) else drafts[i]
  {
    seq(|drafts|, i requires 0 <= i < |drafts| =>
          if drafts[i].id == id then ChangeDraft(drafts[i], c, accountIds) else drafts[i])
  }

  /**
   * A retyped draft shows, in every column, its previous amount normalised
   * (zero stays zero), and it keeps every other field.
   */
  lemma RetypedDisplay(d: DraftRow, accountIds: seq<string>, t: TxType)
    requires OM.Valid(d.amounts)
    ensures var r := ChangeDraft(d, Retype(t), accountIds);
            r.id == d.id && r.date == d.date && r.description == d.description && r.categoryId == d.categoryId &&
            r.txType == t && r.amounts.keys == d.amounts.keys &&
            forall k :: k in accountIds ==> AmountFor(Draft(r), k) == Normalize(t, AmountFor(Draft(d), k))
  {
    NormalizedAmountsSpec(d.amounts, accountIds, t);
  }

  /** An amount input on a draft sets that column and leaves every other column and field as it was. */
  lemma SetAmountDisplay(d: DraftRow, accountIds: seq<string>, accountId: string, v: int)
    requires OM.Valid(d.amounts)
    ensures var r := ChangeDraft(d, SetAmount(accountId, v), accountIds);
            AmountFor(Draft(r), accountId) == v &&
            (forall k :: k != accountId ==> AmountFor(Draft(r), k) == AmountFor(Draft(d), k)) &&
            r == d.(amounts := r.amounts)
  {
  }

  /** The single-field edits of the date, type, description and category inputs. */
  function DateEdit(value: string): RowEdit {
    NoEdit.(date := Some(value))
  }

  function TypeEdit(t: TxType): RowEdit {
    NoEdit.(txType := Some(t))
  }

  function DescriptionEdit(value: string): RowEdit {
    NoEdit.(description := Some(value))
  }

  /** `category_id: e.target.value || null`. */
  function CategoryEdit(value: string): RowEdit {
    NoEdit.(categoryId := Some(if value == "" then None else Some(value)))
  }

  // ----- Amount inputs -----

  /** `${rowId}-${accId}`: the key of a column's typed text. */
  function PendingKey(rowId: string, accountId: string): string {
    rowId + "-" + accountId
  }

  /** The keys of a row's amount inputs, one per column. */
  function PendingKeys(rowId: string, accountIds: seq<string>): (keys: seq<string>)
    ensures |keys| == |accountIds| && forall i :: 0 <= i < |accountIds| ==> keys[i] == PendingKey(rowId, accountIds[i])
  {
    if accountIds == [] then []
    else PendingKeys(rowId, accountIds[..|accountIds| - 1]) + [PendingKey(rowId, accountIds[|accountIds| - 1])]
  }

  /** The typed text after deleting the row's column keys one by one. */
  function Cleared(pending: OM.OMap<string>, rowId: string, accountIds: seq<string>): (r: OM.OMap<string>)
    requires OM.Valid(pending)
    ensures OM.Valid(r)
  {
    if accountIds == [] then pending
    else OM.Delete(Cleared(pending, rowId, accountIds[..|accountIds| - 1]), PendingKey(rowId, accountIds[|accountIds| - 1]))
  }

  /** After clearing, no column of the row has typed text left; every other key keeps its text. */
  lemma {:induction false} ClearedSpec(pending: OM.OMap<string>, rowId: string, accountIds: seq<string>)
    requires OM.Valid(pending)
    ensures var r := Cleared(pending, rowId, accountIds);
            (forall k :: k in r.values <==> k in pending.values && k !in PendingKeys(rowId, accountIds)) &&
            (forall k :: k in r.values ==> r.values[k] == pending.values[k])
  {
    if accountIds != [] {
      var init := accountIds[..|accountIds| - 1];
      ClearedSpec(pending, rowId, init);
      assert PendingKeys(rowId, accountIds) == PendingKeys(rowId, init) + [PendingKey(rowId, accountIds[|accountIds| - 1])];
    }
  }

  /**
   * The amount an amount input stores: 0 for an empty field or a lone
   * minus, the number read after the first comma becomes a point, and
   * otherwise the amount shown before.
   */
  function ValueToStore(raw: string, shown: int): int {
    if raw == "" || raw == "-" then 0
    else match ParseFloat(Text.ReplaceFirst(raw, ',', '.'))
      case Some(v) => v
      case None => shown
  }

  /** `accountIds.reduce((acc, aid) => ({ ...acc, [aid]: getAmountForRow(display, aid) }), {})`. */
  function ShownAmounts(display: Row, accountIds: seq<string>): (m: OM.OMap<int>)
    ensures OM.Valid(m)
  {
    if accountIds == [] then OM.Empty()
    else OM.Put(ShownAmounts(display, accountIds[..|accountIds| - 1]), accountIds[|accountIds| - 1],
                AmountFor(display, accountIds[|accountIds| - 1]))
  }

  lemma {:induction false} ShownAmountsSpec(display: Row, accountIds: seq<string>)
    ensures forall k :: k in ShownAmounts(display, accountIds).values <==> k in accountIds
    ensures forall k :: k in accountIds ==> ShownAmounts(display, accountIds).values[k] == AmountFor(display, k)
  {
    if accountIds != [] {
      var init, last := accountIds[..|accountIds| - 1], accountIds[|accountIds| - 1];
      ShownAmountsSpec(display, init);
      assert forall k :: k in accountIds <==> k in init || k == last;
    }
  }

  /** The edit an amount input records on a saved row: every column as shown, with the typed one replaced. */
  function AmountEdit(display: Row, accountIds: seq<string>, accountId: string, v: int): RowEdit {
    NoEdit.(amounts := Some(OM.Put(ShownAmounts(display, accountIds), accountId, v)))
  }

  /**
   * After an amount input on a saved row, the typed column shows the stored
   * amount and every other column shows what it showed before.
   */
  lemma AmountEditDisplay(edits: OM.OMap<RowEdit>, t: Transaction, accountIds: seq<string>, accountId: string, v: int)
    requires EditsWellFormed(edits)
    ensures var row := SavedRow(t);
            var before := MergeRow(row, OM.Get(edits, t.id));
            var after := MergeRow(row, OM.Get(EditsAfter(edits, t.id, AmountEdit(before, accountIds, accountId, v)), t.id));
            AmountFor(after, accountId) == v &&
            forall k :: k in accountIds && k != accountId ==> AmountFor(after, k) == AmountFor(before, k)
  {
    var row := SavedRow(t);
    var before := MergeRow(row, OM.Get(edits, t.id));
    var update := AmountEdit(before, accountIds, accountId, v);
    var combined := Combine(OM.GetOr(edits, t.id, NoEdit), update);
    DisplayAfterEdit(edits, row, update);
    ShownAmountsSpec(before, accountIds);
    forall k | k == accountId || (k in accountIds && k != accountId)
      ensures AmountFor(MergeRow(row, Some(combined)), k) == if k == accountId then v else AmountFor(before, k)
    {
      MergeAmounts(row, combined, k);
    }
  }

  // ----- Type change -----

  /**
   * After a saved row's type changes to anything but a transfer, every
   * column shows the amount it showed before, normalised to the new type.
   */
  lemma TypeChangeDisplay(edits: OM.OMap<RowEdit>, t: Transaction, accountIds: seq<string>, newType: TxType)
    requires EditsWellFormed(edits)
    ensures var row := SavedRow(t);
            var before := MergeRow(row, OM.Get(edits, t.id));
            var after := MergeRow(row, OM.Get(EditsAfter(edits, t.id, TypeChangeEdit(before, accountIds, newType)), t.id));
            RowType(after) == newType &&
            forall k :: k in accountIds ==> AmountFor(after, k) == Normalize(newType, AmountFor(before, k))
  {
    var row := SavedRow(t);
    var before := MergeRow(row, OM.Get(edits, t.id));
    var update := TypeChangeEdit(before, accountIds, newType);
    var prev := OM.GetOr(edits, t.id, NoEdit);
    var combined := Combine(prev, update);
    DisplayAfterEdit(edits, row, update);
    CurrentAmountsSpec(before, accountIds, newType);
    var current := CurrentAmounts(before, accountIds, newType);
    forall k | k in accountIds
      ensures AmountFor(MergeRow(row, Some(combined)), k) == Normalize(newType, AmountFor(before, k))
    {
      MergeAmounts(row, combined, k);
      if current.keys == [] {
        assert k !in current.values;
        NormalizeSpec(newType, AmountFor(before, k));
        if prev != NoEdit {
          MergeAmounts(row, prev, k);
        }
      }
    }
  }

  // ----- Transfer dialog -----

  /** What the dialog writes into the row: the transfer amounts and the description naming both accounts. */
  function TransferEdit(accounts: seq<Account>, from: string, to: string, amt: int): RowEdit {
    NoEdit.(description := Some(TransferDescription(accounts, from, to)),
            amounts := Some(TransferAmounts(AccountIds(accounts), from, to, amt)))
  }

  /**
   * Over distinct accounts, a confirmed transfer between two different
   * accounts makes any row show the amount taken from one, the amount given
   * to the other, 0 in every other column, and a total of 0.
   */
  lemma TransferDisplay(row: Row, prev: RowEdit, accounts: seq<Account>, from: string, to: string, amt: int)
    requires OM.Distinct(AccountIds(accounts)) && from != to && amt > 0
    requires from in AccountIds(accounts) && to in AccountIds(accounts)
    ensures var ids, after := AccountIds(accounts), MergeRow(row, Some(Combine(prev, TransferEdit(accounts, from, to, amt))));
            AmountFor(after, from) == -amt && AmountFor(after, to) == amt &&
            (forall k :: k in ids && k != from && k != to ==> AmountFor(after, k) == 0) &&
            RowTotal(after, ids) == 0
  {
    var ids := AccountIds(accounts);
    var combined := Combine(prev, TransferEdit(accounts, from, to, amt));
    var after := MergeRow(row, Some(combined));
    var m := TransferAmounts(ids, from, to, amt);
    forall k ensures AmountFor(after, k) == OM.GetOr(m, k, 0) {
      MergeAmounts(row, combined, k);
    }
    TransferAmountsSpec(ids, from, to, amt, after);
  }

  // ----- The table -----

  /** The transfer dialog: the row it is open for, the inputs, and the type to restore on cancel. */
  datatype TransferDialog = TransferDialog(rowId: Option<string>, from: string, to: string, amount: string,
                                           prevType: TxType)

  /** The month table's state: the nine pieces of `useState` it keeps. */
  datatype TableView = TableView(drafts: seq<DraftRow>, edits: OM.OMap<RowEdit>, editingRowId: Option<string>,
                                 validationError: Option<SaveError>, transfer: TransferDialog,
                                 pending: OM.OMap<string>, direction: Direction, filters: Filters,
                                 deleteTarget: Option<string>)

  const ClosedDialog: TransferDialog := TransferDialog(None, "", "", "", Income)

  const NoFilters: Filters := Filters(None, "", "", "", "")

  class MonthTable {
    var drafts: seq<DraftRow>
    var edits: OM.OMap<RowEdit>
    var editingRowId: Option<string>
    var validationError: Option<SaveError>
    var transfer: TransferDialog
    /** `pendingAmountInput`: the text typed in an amount input, by `PendingKey`. */
    var pending: OM.OMap<string>
    var direction: Direction
    var filters: Filters
    /** `deleteTargetId`: the saved row the delete confirmation is open for. */
    var deleteTarget: Option<string>
    const monthId: string
    const accounts: seq<Account>
    const nextRowOrder: int

    /** The table's state as one value, so that a handler can say which parts it changes and that the rest stay. */
    ghost function View(): TableView
      reads this
    {
      TableView(drafts, edits, editingRowId, validationError, transfer, pending, direction, filters, deleteTarget)
    }

    ghost predicate Valid()
      reads this
    {
      EditsWellFormed(edits) && OM.Valid(pending) && DraftsValid(drafts)
    }

    /** The table as first shown: no drafts, no edits, nothing open, newest first, no filter. */
    constructor (monthId: string, accounts: seq<Account>, nextRowOrder: int)
      ensures Valid() && drafts == [] && edits == OM.Empty() && pending == OM.Empty()
      ensures editingRowId.None? && validationError.None? && transfer == ClosedDialog
      ensures direction == Descending && filters == NoFilters && !HasActiveFilters(filters) && deleteTarget.None?
      ensures this.monthId == monthId && this.accounts == accounts && this.nextRowOrder == nextRowOrder
    {
      drafts := [];
      edits := OM.Empty();
      editingRowId := None;
      validationError := None;
      transfer := ClosedDialog;
      pending := OM.Empty();
      direction := Descending;
      filters := NoFilters;
      deleteTarget := None;
      this.monthId := monthId;
      this.accounts := accounts;
      this.nextRowOrder := nextRowOrder;
    }

    /** `getDisplayRow`: the row with its pending edit merged in. */
    function Display(row: Row): Row
      reads this
    {
      MergeRow(row, OM.Get(edits, RowId(row)))
    }

    /** `filteredRows`: the sorted rows the filters keep. */
    function Rows(txs: seq<Transaction>): seq<Row>
      reads this
    {
      FilteredRows(filters, AllRows(txs, drafts, direction))
    }

    /** `setEdit`. */
    method SetEdit(id: string, update: RowEdit)
      requires Valid() && ValidEdit(update)
      modifies this
      ensures Valid() && edits == EditsAfter(old(edits), id, update)
      ensures View() == old(View()).(edits := edits)
    {
      EditsAfterWellFormed(edits, id, update);
      edits := EditsAfter(edits, id, update);
    }

    /** `addRow`, with the clock's id and date as parameters: an empty income draft at the end. */
    method AddRow(id: string, today: string)
      requires Valid()
      modifies this
      ensures Valid() && drafts == old(drafts) + [DraftRow(id, today, Income, "", None, OM.Empty())]
      ensures View() == old(View()).(drafts := drafts)
    {
      drafts := drafts + [DraftRow(id, today, Income, "", None, OM.Empty())];
    }

    /** `discardDraftRow`: the draft and its pending edit are dropped. */
    method DiscardDraft(id: string)
      requires Valid()
      modifies this
      ensures Valid() && drafts == RemoveDraft(old(drafts), id) && edits == OM.Delete(old(edits), id)
      ensures id !in edits.values && forall k :: k != id ==> OM.Get(edits, k) == OM.Get(old(edits), k)
      ensures View() == old(View()).(drafts := drafts, edits := edits)
    {
      forall i | 0 <= i < |RemoveDraft(drafts, id)| ensures OM.Valid(RemoveDraft(drafts, id)[i].amounts) {
        var d := RemoveDraft(drafts, id)[i];
        assert d in drafts;
        var j :| 0 <= j < |drafts| && drafts[j] == d;
      }
      drafts := RemoveDraft(drafts, id);
      edits := OM.Delete(edits, id);
    }

    /** The menu entry that opens a row for editing, or closes it when it is the one open. */
    method ToggleEditing(id: string)
      modifies this
      ensures editingRowId == if old(editingRowId) == Some(id) then None else Some(id)
      ensures View() == old(View()).(editingRowId := editingRowId)
    {
      if editingRowId == Some(id) {
        editingRowId := None;
      } else {
        editingRowId := Some(id);
      }
    }

    /** `clearFilters`. */
    method ClearFilters()
      modifies this
      ensures filters == NoFilters && !HasActiveFilters(filters)
      ensures View() == old(View()).(filters := filters)
    {
      filters := NoFilters;
    }

    /** The filter inputs: the type select, the category select, the search text and the two dates. */
    method SetFilters(f: Filters)
      modifies this
      ensures filters == f && (HasActiveFilters(filters) <==> f != NoFilters)
      ensures View() == old(View()).(filters := filters)
    {
      filters := f;
    }

    /** A click on the date header flips the order between newest and oldest first. */
    method ToggleDirection()
      modifies this
      ensures direction != old(direction)
      ensures View() == old(View()).(direction := direction)
    {
      direction := if direction == Descending then Ascending else Descending;
    }

    /** Leaving an amount input forgets its typed text, so the column shows the stored amount again. */
    method AmountBlur(rowId: string, accountId: string)
      requires Valid()
      modifies this
      ensures Valid() && pending == OM.Delete(old(pending), PendingKey(rowId, accountId))
      ensures PendingKey(rowId, accountId) !in pending.values
      ensures forall k :: k != PendingKey(rowId, accountId) ==> OM.Get(pending, k) == OM.Get(old(pending), k)
      ensures View() == old(View()).(pending := pending)
    {
      pending := OM.Delete(pending, PendingKey(rowId, accountId));
    }

    /** "Eliminar" on a saved row opens the delete confirmation for it. */
    method AskDelete(id: string)
      modifies this
      ensures deleteTarget == Some(id)
      ensures View() == old(View()).(deleteTarget := deleteTarget)
    {
      deleteTarget := Some(id);
    }

    /** "Cancelar" closes the delete confirmation. */
    method CancelDelete()
      modifies this
      ensures deleteTarget.None?
      ensures View() == old(View()).(deleteTarget := deleteTarget)
    {
      deleteTarget := None;
    }

    /**
     * `handleConfirmDelete`: the id of the transaction to delete, or None when
     * no confirmation is open; the confirmation stays open until the delete succeeds.
     */
    method ConfirmDelete() returns (id: Option<string>)
      ensures id == deleteTarget
    {
      id := deleteTarget;
    }

    /** The delete succeeded: the confirmation closes. */
    method Deleted()
      modifies this
      ensures deleteTarget.None?
      ensures View() == old(View()).(deleteTarget := deleteTarget)
    {
      deleteTarget := None;
    }

    /** A field input of a row: written into the draft, or recorded as the saved row's edit. */
    method EditField(row: Row, update: RowEdit)
      requires Valid() && update.amounts.None?
      modifies this
      ensures Valid()
      ensures row.Draft? ==> drafts == ChangeDrafts(old(drafts), RowId(row), Fields(update), AccountIds(accounts)) && edits == old(edits)
      ensures row.SavedRow? ==> edits == EditsAfter(old(edits), RowId(row), update) && drafts == old(drafts)
      ensures View() == old(View()).(drafts := drafts, edits := edits)
    {
      if row.Draft? {
        drafts := ChangeDrafts(drafts, RowId(row), Fields(update), AccountIds(accounts));
      } else {
        EditsAfterWellFormed(edits, RowId(row), update);
        edits := EditsAfter(edits, RowId(row), update);
      }
    }

    /** The date, description and category inputs. */
    method EditDate(row: Row, value: string)
      requires Valid()
      modifies this
      ensures Valid()
      ensures row.Draft? ==> drafts == ChangeDrafts(old(drafts), RowId(row), Fields(DateEdit(value)), AccountIds(accounts)) && edits == old(edits)
      ensures row.SavedRow? ==> edits == EditsAfter(old(edits), RowId(row), DateEdit(value)) && drafts == old(drafts)
      ensures row.SavedRow? ==> RowDate(Display(row)) == value
      ensures View() == old(View()).(drafts := drafts, edits := edits)
    {
      EditField(row, DateEdit(value));
      if row.SavedRow? {
        DisplayAfterEdit(old(edits), row, DateEdit(value));
      }
    }

    method EditDescription(row: Row, value: string)
      requires Valid()
      modifies this
      ensures Valid()
      ensures row.Draft? ==> drafts == ChangeDrafts(old(drafts), RowId(row), Fields(DescriptionEdit(value)), AccountIds(accounts)) && edits == old(edits)
      ensures row.SavedRow? ==> edits == EditsAfter(old(edits), RowId(row), DescriptionEdit(value)) && drafts == old(drafts)
      ensures row.SavedRow? ==> RowDescription(Display(row)) == value
      ensures View() == old(View()).(drafts := drafts, edits := edits)
    {
      EditField(row, DescriptionEdit(value));
      if row.SavedRow? {
        DisplayAfterEdit(old(edits), row, DescriptionEdit(value));
      }
    }

    method EditCategory(row: Row, value: string)
      requires Valid()
      modifies this
      ensures Valid()
      ensures row.Draft? ==> drafts == ChangeDrafts(old(drafts), RowId(row), Fields(CategoryEdit(value)), AccountIds(accounts)) && edits == old(edits)
      ensures row.SavedRow? ==> edits == EditsAfter(old(edits), RowId(row), CategoryEdit(value)) && drafts == old(drafts)
      ensures row.SavedRow? ==> RowCategory(Display(row)) == if value == "" then None else Some(value)
      ensures View() == old(View()).(drafts := drafts, edits := edits)
    {
      EditField(row, CategoryEdit(value));
      if row.SavedRow? {
        DisplayAfterEdit(old(edits), row, CategoryEdit(value));
      }
    }

    /**
     * An amount input: the typed text is kept, and the value it stores (see
     * `ValueToStore`) is written into the draft, or recorded as the saved
     * row's edit together with every other column as shown.
     */
    method AmountInput(row: Row, accountId: string, raw: string)
      requires Valid()
      modifies this
      ensures Valid()
      ensures pending == OM.Put(old(pending), PendingKey(RowId(row), accountId), raw)
      ensures var v := ValueToStore(raw, AmountFor(old(Display(row)), accountId));
              (row.Draft? ==>
                 drafts == ChangeDrafts(old(drafts), RowId(row), SetAmount(accountId, v), AccountIds(accounts)) &&
                 edits == old(edits)) &&
              (row.SavedRow? ==>
                 edits == EditsAfter(old(edits), RowId(row), AmountEdit(old(Display(row)), AccountIds(accounts), accountId, v)) &&
                 drafts == old(drafts))
      ensures View() == old(View()).(drafts := drafts, edits := edits, pending := pending)
    {
      var ds, es, ps := InputAmount(row, Display(row), accountId, raw, AccountIds(accounts), drafts, edits, pending);
      Commit(ds, es, ps, transfer);
    }

    /** The type select. A transfer opens the dialog; any other type normalises the row's amounts. */
    method ChangeType(row: Row, newType: TxType)
      requires Valid()
      modifies this
      ensures Valid()
      ensures var id, ids := RowId(row), AccountIds(accounts);
              newType == InternalTransfer ==>
                transfer == TransferDialog(Some(id), "", "", "", RowType(old(Display(row)))) && pending == old(pending) &&
                (row.Draft? ==> drafts == ChangeDrafts(old(drafts), id, Fields(TypeEdit(newType)), ids) && edits == old(edits)) &&
                (row.SavedRow? ==> edits == EditsAfter(old(edits), id, TypeEdit(newType)) && drafts == old(drafts))
      ensures var id, ids := RowId(row), AccountIds(accounts);
              newType != InternalTransfer ==>
                transfer == old(transfer) && pending == Cleared(old(pending), id, ids) &&
                (row.Draft? ==> drafts == ChangeDrafts(old(drafts), id, Retype(newType), ids) && edits == old(edits)) &&
                (row.SavedRow? ==>
                   edits == EditsAfter(old(edits), id, TypeChangeEdit(old(Display(row)), ids, newType)) && drafts == old(drafts))
      ensures View() == old(View()).(drafts := drafts, edits := edits, pending := pending, transfer := transfer)
    {
      var ds, es, ps, dialog := TypeChanged(row, Display(row), newType, AccountIds(accounts), drafts, edits, pending, transfer);
      Commit(ds, es, ps, dialog);
    }

    /** The dialog's "Desde" select. */
    method ChooseTransferFrom(from: string)
      modifies this
      ensures transfer == old(transfer).(from := from)
      ensures View() == old(View()).(transfer := transfer)
    {
      transfer := transfer.(from := from);
    }

    /** The dialog's "Hacia" select. */
    method ChooseTransferTo(to: string)
      modifies this
      ensures transfer == old(transfer).(to := to)
      ensures View() == old(View()).(transfer := transfer)
    {
      transfer := transfer.(to := to);
    }

    /** The dialog's "Monto" input: the typed text is kept with its first comma turned into a point. */
    method TypeTransferAmount(raw: string)
      modifies this
      ensures transfer == old(transfer).(amount := Text.ReplaceFirst(raw, ',', '.'))
      ensures View() == old(View()).(transfer := transfer)
    {
      transfer := transfer.(amount := Text.ReplaceFirst(raw, ',', '.'));
    }

    /** Cancel: the row gets back the type it had before the dialog opened, and the dialog closes. */
    method CancelTransfer()
      requires Valid()
      modifies this
      ensures Valid() && transfer == old(transfer).(rowId := None)
      ensures View() == old(View()).(drafts := drafts, edits := edits, transfer := transfer)
      ensures old(transfer).rowId.None? ==> drafts == old(drafts) && edits == old(edits)
      ensures var d, ids := old(transfer), AccountIds(accounts);
              d.rowId.Some? ==>
                var edit := TypeEdit(d.prevType);
                (DraftIndex(old(drafts), d.rowId.value) >= 0 ==>
                   drafts == ChangeDrafts(old(drafts), d.rowId.value, Fields(edit), ids) && edits == old(edits)) &&
                (DraftIndex(old(drafts), d.rowId.value) < 0 ==>
                   edits == EditsAfter(old(edits), d.rowId.value, edit) && drafts == old(drafts))
    {
      var ds, es := drafts, edits;
      if transfer.rowId.Some? {
        var id, edit := transfer.rowId.value, TypeEdit(transfer.prevType);
        if DraftIndex(ds, id) >= 0 {
          ds := ChangeDrafts(ds, id, Fields(edit), AccountIds(accounts));
        } else {
          EditsAfterWellFormed(es, id, edit);
          es := EditsAfter(es, id, edit);
        }
      }
      drafts, edits, transfer := ds, es, transfer.(rowId := None);
    }

    /**
     * Confirm: with the dialog open on two different accounts and a positive
     * amount, the transfer amounts and description are written into the row,
     * its typed amounts are dropped, and the dialog closes; otherwise nothing
     * changes.
     */
    method ConfirmTransfer()
      requires Valid()
      modifies this
      ensures Valid()
      ensures ConfirmedAmount(old(transfer)).None? ==> View() == old(View())
      ensures View() == old(View()).(drafts := drafts, edits := edits, pending := pending, transfer := transfer)
      ensures var d, ids := old(transfer), AccountIds(accounts);
              ConfirmedAmount(d).Some? ==>
                var id, edit := d.rowId.value, TransferEdit(accounts, d.from, d.to, ConfirmedAmount(d).value);
                transfer == d.(rowId := None) && pending == Cleared(old(pending), id, ids) &&
                (DraftIndex(old(drafts), id) >= 0 ==>
                   drafts == ChangeDrafts(old(drafts), id, Fields(edit), ids) && edits == old(edits)) &&
                (DraftIndex(old(drafts), id) < 0 ==> edits == EditsAfter(old(edits), id, edit) && drafts == old(drafts))
    {
      var ds, es, ps, dialog := Confirm(transfer, accounts, drafts, edits, pending);
      Commit(ds, es, ps, dialog);
    }

    /** A handler's outcome stored at once: drafts, edits, typed amounts and the dialog. */
    method Commit(ds: seq<DraftRow>, es: OM.OMap<RowEdit>, ps: OM.OMap<string>, dialog: TransferDialog)
      requires DraftsValid(ds) && EditsWellFormed(es) && OM.Valid(ps)
      modifies this
      ensures Valid() && drafts == ds && edits == es && pending == ps && transfer == dialog
      ensures View() == old(View()).(drafts := ds, edits := es, pending := ps, transfer := dialog)
    {
      drafts, edits, pending, transfer := ds, es, ps, dialog;
    }

    /**
     * `saveDraftRow` up to the insert: the message is cleared, then set to
     * the first rule the displayed draft breaks, or the insert request is
     * returned. Nothing else changes until the insert succeeds.
     */
    method SaveDraftRow(d: DraftRow) returns (request: Option<CreateRequest>)
      requires Valid()
      modifies this
      ensures View() == old(View()).(validationError := validationError)
      ensures var out := SaveDraft(d, OM.Get(edits, d.id), drafts, AccountIds(accounts), monthId, nextRowOrder);
              (out.DraftRejected? ==> validationError == Some(out.error) && request.None?) &&
              (out.Create? ==> validationError.None? && request == Some(out.request))
    {
      validationError := None;
      var out := SaveDraft(d, OM.Get(edits, d.id), drafts, AccountIds(accounts), monthId, nextRowOrder);
      if out.DraftRejected? {
        validationError := Some(out.error);
        request := None;
      } else {
        request := Some(out.request);
      }
    }

    /** The insert succeeded: the draft leaves the table. */
    method DraftCreated(id: string)
      requires Valid()
      modifies this
      ensures Valid() && drafts == RemoveDraft(old(drafts), id)
      ensures View() == old(View()).(drafts := drafts)
    {
      forall i | 0 <= i < |RemoveDraft(drafts, id)| ensures OM.Valid(RemoveDraft(drafts, id)[i].amounts) {
        var d := RemoveDraft(drafts, id)[i];
        assert d in drafts;
        var j :| 0 <= j < |drafts| && drafts[j] == d;
      }
      drafts := RemoveDraft(drafts, id);
    }

    /**
     * `saveEditedRow` up to the update: without a pending edit the editor
     * closes; a row missing from the table stops before the message is
     * cleared; otherwise the message is cleared, then set to the first rule
     * the displayed row breaks, or the update is returned.
     */
    method SaveEditedRow(rowId: string, txs: seq<Transaction>) returns (payload: Option<UpdatePayload>)
      requires Valid()
      modifies this
      ensures Valid() && View() == old(View()).(validationError := validationError, editingRowId := editingRowId)
      ensures var rows := AllRows(txs, old(drafts), old(direction));
              var out := SaveEdited(rowId, old(edits), rows, txs, AccountIds(accounts));
              (out.Update? <==> payload.Some?) && (out.Update? ==> payload == Some(out.payload)) &&
              (out == CloseEditor ==> editingRowId.None? && validationError == old(validationError)) &&
              (out != CloseEditor ==> editingRowId == old(editingRowId)) &&
              (out.EditRejected? ==> validationError == Some(out.error)) &&
              (out.Update? ==> validationError.None?) &&
              (FindSaved(rows, rowId).None? ==> validationError == old(validationError))
    {
      var rows := AllRows(txs, drafts, direction);
      var out := SaveEdited(rowId, edits, rows, txs, AccountIds(accounts));
      var message, open := validationError, editingRowId;
      payload := None;
      if out == CloseEditor {
        open := None;
      } else if out == NotFound {
        // Either the row is not in the table, before the message is
        // cleared, or it is not among the transactions, after the checks.
        if FindSaved(rows, rowId).Some? {
          message := None;
        }
      } else if out.EditRejected? {
        message := Some(out.error);
      } else {
        message := None;
        payload := Some(out.payload);
      }
      validationError, editingRowId := message, open;
    }

    /** The update succeeded: the row's pending edit is dropped and the editor closes. */
    method EditSaved(rowId: string)
      requires Valid()
      modifies this
      ensures Valid() && edits == OM.Delete(old(edits), rowId) && editingRowId.None?
      ensures View() == old(View()).(edits := edits, editingRowId := editingRowId)
      ensures rowId !in edits.values && forall k :: k != rowId ==> OM.Get(edits, k) == OM.Get(old(edits), k)
    {
      edits := OM.Delete(edits, rowId);
      editingRowId := None;
    }
  }

  // ----- The loops of the handlers -----

  /** `prev.map` of a type change: each draft with the row's id retyped by the loop below. */
  method RetypeDrafts(drafts: seq<DraftRow>, id: string, accountIds: seq<string>, t: TxType) returns (out: seq<DraftRow>)
    requires DraftsValid(drafts)
    ensures out == ChangeDrafts(drafts, id, Retype(t), accountIds)
  {
    out := [];
    for i := 0 to |drafts|
      invariant |out| == i
      invariant forall j :: 0 <= j < i ==>
                  out[j] == if drafts[j].id == id then ChangeDraft(drafts[j], Retype(t), accountIds) else drafts[j]
    {
      var d := drafts[i];
      if d.id == id {
        var normalized := NormalizeAmounts(d.amounts, accountIds, t);
        d := d.(txType := t, amounts := normalized);
      }
      out := out + [d];
    }
  }

  /** The draft loop of a type change: each column's non-zero amount normalised. */
  method NormalizeAmounts(amounts: OM.OMap<int>, accountIds: seq<string>, t: TxType) returns (m: OM.OMap<int>)
    requires OM.Valid(amounts)
    ensures m == NormalizedAmounts(amounts, accountIds, t)
  {
    m := amounts;
    for i := 0 to |accountIds|
      invariant m == NormalizedAmounts(amounts, accountIds[..i], t)
    {
      assert accountIds[..i + 1][..i] == accountIds[..i];
      var v := OM.GetOr(amounts, accountIds[i], 0);
      if v != 0 {
        m := OM.Put(m, accountIds[i], Normalize(t, v));
      }
    }
    assert accountIds[..|accountIds|] == accountIds;
  }

  /** The edit a saved row's type change records, with `currentAmounts` built by the loop below. */
  method TypeChangeUpdate(display: Row, accountIds: seq<string>, t: TxType) returns (update: RowEdit)
    ensures update == TypeChangeEdit(display, accountIds, t) && ValidEdit(update) && !NoChange(update)
  {
    var current := CollectAmounts(display, accountIds, t);
    update := RowEdit(None, Some(t), None, None, if current.keys != [] then Some(current) else None);
  }

  /** The saved-row loop of a type change: `currentAmounts`. */
  method CollectAmounts(display: Row, accountIds: seq<string>, t: TxType) returns (m: OM.OMap<int>)
    ensures m == CurrentAmounts(display, accountIds, t)
  {
    m := OM.Empty();
    for i := 0 to |accountIds|
      invariant m == CurrentAmounts(display, accountIds[..i], t)
    {
      assert accountIds[..i + 1][..i] == accountIds[..i];
      var v := AmountFor(display, accountIds[i]);
      if v != 0 {
        m := OM.Put(m, accountIds[i], Normalize(t, v));
      }
    }
    assert accountIds[..|accountIds|] == accountIds;
  }

  /** The amount input on the table's values; `display` is the row as shown. */
  method InputAmount(row: Row, display: Row, accountId: string, raw: string, ids: seq<string>,
                     drafts: seq<DraftRow>, edits: OM.OMap<RowEdit>, pending: OM.OMap<string>)
    returns (ds: seq<DraftRow>, es: OM.OMap<RowEdit>, ps: OM.OMap<string>)
    requires DraftsValid(drafts) && EditsWellFormed(edits) && OM.Valid(pending)
    ensures DraftsValid(ds) && EditsWellFormed(es) && OM.Valid(ps)
    ensures ps == OM.Put(pending, PendingKey(RowId(row), accountId), raw)
    ensures var v := ValueToStore(raw, AmountFor(display, accountId));
            (row.Draft? ==> ds == ChangeDrafts(drafts, RowId(row), SetAmount(accountId, v), ids) && es == edits) &&
            (row.SavedRow? ==> es == EditsAfter(edits, RowId(row), AmountEdit(display, ids, accountId, v)) && ds == drafts)
  {
    var v := ValueToStore(raw, AmountFor(display, accountId));
    ds, es := drafts, edits;
    if row.Draft? {
      ds := ChangeDrafts(ds, RowId(row), SetAmount(accountId, v), ids);
    } else {
      var update := AmountEdit(display, ids, accountId, v);
      EditsAfterWellFormed(es, RowId(row), update);
      es := EditsAfter(es, RowId(row), update);
    }
    ps := OM.Put(pending, PendingKey(RowId(row), accountId), raw);
  }

  /** The type select on the table's values; `display` is the row as shown. */
  method TypeChanged(row: Row, display: Row, newType: TxType, ids: seq<string>, drafts: seq<DraftRow>,
                     edits: OM.OMap<RowEdit>, pending: OM.OMap<string>, transfer: TransferDialog)
    returns (ds: seq<DraftRow>, es: OM.OMap<RowEdit>, ps: OM.OMap<string>, dialog: TransferDialog)
    requires DraftsValid(drafts) && EditsWellFormed(edits) && OM.Valid(pending)
    ensures DraftsValid(ds) && EditsWellFormed(es) && OM.Valid(ps)
    ensures var id := RowId(row);
            newType == InternalTransfer ==>
              dialog == TransferDialog(Some(id), "", "", "", RowType(display)) && ps == pending &&
              (row.Draft? ==> ds == ChangeDrafts(drafts, id, Fields(TypeEdit(newType)), ids) && es == edits) &&
              (row.SavedRow? ==> es == EditsAfter(edits, id, TypeEdit(newType)) && ds == drafts)
    ensures var id := RowId(row);
            newType != InternalTransfer ==>
              dialog == transfer && ps == Cleared(pending, id, ids) &&
              (row.Draft? ==> ds == ChangeDrafts(drafts, id, Retype(newType), ids) && es == edits) &&
              (row.SavedRow? ==> es == EditsAfter(edits, id, TypeChangeEdit(display, ids, newType)) && ds == drafts)
  {
    var id := RowId(row);
    ds, es, ps, dialog := drafts, edits, pending, transfer;
    if newType == InternalTransfer {
      // The dialog opens and the select shows the new type at once.
      dialog := TransferDialog(Some(id), "", "", "", RowType(display));
      if row.Draft? {
        ds := ChangeDrafts(ds, id, Fields(TypeEdit(newType)), ids);
      } else {
        EditsAfterWellFormed(es, id, TypeEdit(newType));
        es := EditsAfter(es, id, TypeEdit(newType));
      }
    } else {
      if row.Draft? {
        ds := RetypeDrafts(ds, id, ids, newType);
      } else {
        var update := TypeChangeUpdate(display, ids, newType);
        EditsAfterWellFormed(es, id, update);
        es := EditsAfter(es, id, update);
      }
      ps := ClearPending(ps, id, ids);
    }
  }

  /** `handleConfirmTransfer` on the table's values. */
  method Confirm(d: TransferDialog, accounts: seq<Account>, drafts: seq<DraftRow>, edits: OM.OMap<RowEdit>,
                 pending: OM.OMap<string>)
    returns (ds: seq<DraftRow>, es: OM.OMap<RowEdit>, ps: OM.OMap<string>, t: TransferDialog)
    requires DraftsValid(drafts) && EditsWellFormed(edits) && OM.Valid(pending)
    ensures DraftsValid(ds) && EditsWellFormed(es) && OM.Valid(ps)
    ensures ConfirmedAmount(d).None? ==> t == d && ds == drafts && es == edits && ps == pending
    ensures var ids := AccountIds(accounts);
            ConfirmedAmount(d).Some? ==>
              var id, edit := d.rowId.value, TransferEdit(accounts, d.from, d.to, ConfirmedAmount(d).value);
              t == d.(rowId := None) && ps == Cleared(pending, id, ids) &&
              (DraftIndex(drafts, id) >= 0 ==> ds == ChangeDrafts(drafts, id, Fields(edit), ids) && es == edits) &&
              (DraftIndex(drafts, id) < 0 ==> es == EditsAfter(edits, id, edit) && ds == drafts)
  {
    var amt := ConfirmedAmount(d);
    if amt.None? {
      return drafts, edits, pending, d;  // the button is disabled, the amount is not positive, or the dialog is not shown
    }
    ds, es := WriteTransfer(d.rowId.value, accounts, d.from, d.to, amt.value, drafts, edits);
    ps := ClearPending(pending, d.rowId.value, AccountIds(accounts));
    t := d.(rowId := None);
  }

  /**
   * What a confirm writes: the transfer amounts (built by the loop below)
   * and the description, into the draft with the row's id if there is one,
   * and otherwise into the saved row's pending edit.
   */
  method WriteTransfer(id: string, accounts: seq<Account>, from: string, to: string, amt: int,
                       drafts: seq<DraftRow>, edits: OM.OMap<RowEdit>)
    returns (ds: seq<DraftRow>, es: OM.OMap<RowEdit>)
    requires DraftsValid(drafts) && EditsWellFormed(edits)
    ensures DraftsValid(ds) && EditsWellFormed(es)
    ensures var edit, ids := TransferEdit(accounts, from, to, amt), AccountIds(accounts);
            (DraftIndex(drafts, id) >= 0 ==> ds == ChangeDrafts(drafts, id, Fields(edit), ids) && es == edits) &&
            (DraftIndex(drafts, id) < 0 ==> es == EditsAfter(edits, id, edit) && ds == drafts)
  {
    var ids := AccountIds(accounts);
    var amounts := BuildTransferAmounts(ids, from, to, amt);
    var edit := RowEdit(None, None, Some(TransferDescription(accounts, from, to)), None, Some(amounts));
    ds, es := drafts, edits;
    if DraftIndex(drafts, id) >= 0 {
      ds := ChangeDrafts(drafts, id, Fields(edit), ids);
    } else {
      EditsAfterWellFormed(edits, id, edit);
      es := EditsAfter(edits, id, edit);
    }
  }

  /** `newAmounts`: every column 0, then the amount taken from one account and given to the other. */
  method BuildTransferAmounts(accountIds: seq<string>, from: string, to: string, amt: int) returns (m: OM.OMap<int>)
    ensures m == TransferAmounts(accountIds, from, to, amt)
  {
    m := OM.Empty();
    for i := 0 to |accountIds|
      invariant m == Zeros(accountIds[..i])
    {
      assert accountIds[..i + 1][..i] == accountIds[..i];
      m := OM.Put(m, accountIds[i], 0);
    }
    assert accountIds[..|accountIds|] == accountIds;
    m := OM.Put(m, from, -Abs(amt));
    m := OM.Put(m, to, Abs(amt));
  }

  /** The loop that drops a row's typed amounts. */
  method ClearPending(pending: OM.OMap<string>, rowId: string, accountIds: seq<string>) returns (r: OM.OMap<string>)
    requires OM.Valid(pending)
    ensures r == Cleared(pending, rowId, accountIds)
  {
    r := pending;
    for i := 0 to |accountIds|
      invariant r == Cleared(pending, rowId, accountIds[..i])
    {
      assert accountIds[..i + 1][..i] == accountIds[..i];
      r := OM.Delete(r, PendingKey(rowId, accountIds[i]));
    }
    assert accountIds[..|accountIds|] == accountIds;
  }

  /**
   * The amount a confirm writes, None when it writes nothing: the dialog is
   * open, both accounts are chosen and differ, and the amount reads as a
   * positive number.
   */
  function ConfirmedAmount(d: TransferDialog): (amt: Option<int>)
    ensures amt.Some? ==> d.rowId.Some? && d.from != "" && d.to != "" && d.from != d.to && amt.value > 0
    ensures amt.Some? <==> d.rowId.Some? && d.from != "" && d.to != "" && d.amount != "" && d.from != d.to &&
                           ParseFloat(d.amount).Some? && ParseFloat(d.amount).value > 0
  {
    if d.rowId.None? || d.from == "" || d.to == "" || d.amount == "" || d.from == d.to then None
    else match ParseFloat(d.amount)
      case Some(v) => if v > 0 then Some(v) else None
      case None => None
  }

  /**
   * A positive amount typed into the dialog's "Monto" input, written with a
   * decimal comma or a decimal point, is the amount a confirm writes.
   */
  lemma TypedTransferAmount(d: TransferDialog, c: int, sep: char)
    requires d.rowId.Some? && d.from != "" && d.to != "" && d.from != d.to && c > 0
    requires sep == ',' || sep == '.'
    ensures ConfirmedAmount(d.(amount := Text.ReplaceFirst(DecimalText(c, sep), ',', '.'))) == Some(c)
  {
    if sep == ',' {
      CommaText(c);
    } else {
      NoCommaInJsString(c);
    }
    ParseJsString(c);
  }
}
