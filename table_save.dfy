/**
 * The rules the month table applies when a row is saved or retyped: the
 * checks a row must pass (reported one at a time, in a fixed order), the
 * amount lines a save sends, the sign every amount takes when the type
 * changes, and the amounts a confirmed transfer writes.
 */
module TableSave {
  import opened Ledger
  import opened Text
  import opened TableRows
  import OM = OrderedMaps

  // ----- Validation -----

  /** The accounts of `accountIds` in which the row shows a non-zero amount, in column order. */
  function NonZeroIds(row: Row, accountIds: seq<string>): (ids: seq<string>)
    ensures |ids| <= |accountIds|
    ensures forall k :: k in ids <==> k in accountIds && AmountFor(row, k) != 0
    ensures OM.Distinct(accountIds) ==> OM.Distinct(ids)
  {
    if accountIds == [] then []
    else
      var init, last := accountIds[..|accountIds| - 1], accountIds[|accountIds| - 1];
      assert accountIds == init + [last];
      assert OM.Distinct(accountIds) ==> OM.Distinct(init) && last !in init;
      NonZeroIds(row, init) + (if AmountFor(row, last) != 0 then [last] else [])
  }

  /** The messages the table shows when a save is refused. */
  datatype SaveError =
    | DateRequired              // "La fecha es obligatoria."
    | DescriptionRequired       // "La descripción es obligatoria."
    | AmountRequired            // "Se requiere al menos un monto."
    | TransferNeedsTwoAccounts  // "La transferencia interna requiere al menos dos cuentas."
    | TransferUnbalanced        // "La transferencia interna debe estar balanceada: la suma debe ser 0."
    | CategoryRequired          // "La categoría es obligatoria."

  datatype Checked = Rejected(error: SaveError) | Accepted

  /** The checks `saveDraftRow` and `saveEditedRow` run on the displayed row, the first failure winning. */
  function Check(row: Row, accountIds: seq<string>): Checked {
    var count := |NonZeroIds(row, accountIds)|;
    var transfer := RowType(row) == InternalTransfer;
    if Trim(RowDate(row)) == "" then Rejected(DateRequired)
    else if Trim(RowDescription(row)) == "" then Rejected(DescriptionRequired)
    else if count == 0 then Rejected(AmountRequired)
    else if transfer && count < 2 then Rejected(TransferNeedsTwoAccounts)
    else if transfer && RowTotal(row, accountIds) != 0 then Rejected(TransferUnbalanced)
    else if !Truthy(RowCategory(row)) && !transfer then Rejected(CategoryRequired)
    else Accepted
  }

  /** The position of each check in the order they run. */
  function Rank(e: SaveError): nat {
    match e
    case DateRequired => 0
    case DescriptionRequired => 1
    case AmountRequired => 2
    case TransferNeedsTwoAccounts => 3
    case TransferUnbalanced => 4
    case CategoryRequired => 5
  }

  /**
   * The rule behind each message, stated over the accounts: a blank date or
   * description, no account with an amount, a transfer with fewer than two
   * accounts or a non-zero sum, a row other than a transfer without a category.
   */
  ghost predicate Fails(e: SaveError, row: Row, accountIds: seq<string>) {
    var transfer := RowType(row) == InternalTransfer;
    match e
    case DateRequired => forall i :: 0 <= i < |RowDate(row)| ==> IsSpace(RowDate(row)[i])
    case DescriptionRequired => forall i :: 0 <= i < |RowDescription(row)| ==> IsSpace(RowDescription(row)[i])
    case AmountRequired => forall k :: k in accountIds ==> AmountFor(row, k) == 0
    case TransferNeedsTwoAccounts => transfer && !TwoAccountsWithAmount(row, accountIds)
    case TransferUnbalanced => transfer && RowTotal(row, accountIds) != 0
    case CategoryRequired => !transfer && !Truthy(RowCategory(row))
  }

  /** Two different accounts of the columns show an amount. */
  ghost predicate TwoAccountsWithAmount(row: Row, accountIds: seq<string>) {
    exists j, k :: j in accountIds && k in accountIds && j != k && AmountFor(row, j) != 0 && AmountFor(row, k) != 0
  }

  lemma TwoNonZeroFound(row: Row, accountIds: seq<string>)
    requires OM.Distinct(accountIds) && |NonZeroIds(row, accountIds)| >= 2
    ensures TwoAccountsWithAmount(row, accountIds)
  {
    var ids := NonZeroIds(row, accountIds);
    var j, k := ids[0], ids[1];
    assert j in ids && k in ids && j != k;
  }

  lemma TwoNonZeroCounted(row: Row, accountIds: seq<string>, j: string, k: string)
    requires j in accountIds && k in accountIds && j != k && AmountFor(row, j) != 0 && AmountFor(row, k) != 0
    ensures |NonZeroIds(row, accountIds)| >= 2
  {
    var ids := NonZeroIds(row, accountIds);
    assert j in ids && k in ids;
  }

  /** Over distinct columns, at least two of them hold amounts exactly when two different accounts do. */
  lemma TwoNonZero(row: Row, accountIds: seq<string>)
    requires OM.Distinct(accountIds)
    ensures |NonZeroIds(row, accountIds)| >= 2 <==> TwoAccountsWithAmount(row, accountIds)
  {
    if |NonZeroIds(row, accountIds)| >= 2 {
      TwoNonZeroFound(row, accountIds);
    }
    if TwoAccountsWithAmount(row, accountIds) {
      var j, k :| j in accountIds && k in accountIds && j != k && AmountFor(row, j) != 0 && AmountFor(row, k) != 0;
      TwoNonZeroCounted(row, accountIds, j, k);
    }
  }

  /** No column shows an amount exactly when no account of the columns has one. */
  lemma NoneNonZero(row: Row, accountIds: seq<string>)
    ensures NonZeroIds(row, accountIds) == [] <==> forall k :: k in accountIds ==> AmountFor(row, k) == 0
  {
    var ids := NonZeroIds(row, accountIds);
    if ids != [] {
      assert ids[0] in ids;
    }
  }

  lemma FailsDate(row: Row, accountIds: seq<string>)
    ensures Fails(DateRequired, row, accountIds) <==> Trim(RowDate(row)) == ""
  {
    BlankIffAllSpace(RowDate(row));
  }

  lemma FailsDescription(row: Row, accountIds: seq<string>)
    ensures Fails(DescriptionRequired, row, accountIds) <==> Trim(RowDescription(row)) == ""
  {
    BlankIffAllSpace(RowDescription(row));
  }

  lemma FailsAmount(row: Row, accountIds: seq<string>)
    ensures Fails(AmountRequired, row, accountIds) <==> NonZeroIds(row, accountIds) == []
  {
    NoneNonZero(row, accountIds);
  }

  lemma FailsTwo(row: Row, accountIds: seq<string>)
    requires OM.Distinct(accountIds)
    ensures Fails(TransferNeedsTwoAccounts, row, accountIds) <==>
              RowType(row) == InternalTransfer && |NonZeroIds(row, accountIds)| < 2
  {
    TwoNonZero(row, accountIds);
  }

  lemma FailsBalance(row: Row, accountIds: seq<string>)
    ensures Fails(TransferUnbalanced, row, accountIds) <==>
              RowType(row) == InternalTransfer && RowTotal(row, accountIds) != 0
  {
  }

  lemma FailsCategory(row: Row, accountIds: seq<string>)
    ensures Fails(CategoryRequired, row, accountIds) <==> !Truthy(RowCategory(row)) && RowType(row) != InternalTransfer
  {
  }

  /** Each rule, as `Check` tests it. */
  lemma FailsAsChecked(row: Row, accountIds: seq<string>)
    requires OM.Distinct(accountIds)
    ensures Fails(DateRequired, row, accountIds) <==> Trim(RowDate(row)) == ""
    ensures Fails(DescriptionRequired, row, accountIds) <==> Trim(RowDescription(row)) == ""
    ensures Fails(AmountRequired, row, accountIds) <==> NonZeroIds(row, accountIds) == []
    ensures Fails(TransferNeedsTwoAccounts, row, accountIds) <==>
              RowType(row) == InternalTransfer && |NonZeroIds(row, accountIds)| < 2
    ensures Fails(TransferUnbalanced, row, accountIds) <==>
              RowType(row) == InternalTransfer && RowTotal(row, accountIds) != 0
    ensures Fails(CategoryRequired, row, accountIds) <==> !Truthy(RowCategory(row)) && RowType(row) != InternalTransfer
  {
    FailsDate(row, accountIds);
    FailsDescription(row, accountIds);
    FailsAmount(row, accountIds);
    FailsTwo(row, accountIds);
    FailsBalance(row, accountIds);
    FailsCategory(row, accountIds);
  }

  /**
   * Over distinct account columns, a save is refused with a message exactly
   * when that message's rule fails and every rule checked before it holds,
   * and it is accepted exactly when every rule holds.
   */
  lemma CheckSpec(row: Row, accountIds: seq<string>)
    requires OM.Distinct(accountIds)
    ensures var c, date, desc := Check(row, accountIds), Fails(DateRequired, row, accountIds),
                                 Fails(DescriptionRequired, row, accountIds);
            var amount, two := Fails(AmountRequired, row, accountIds), Fails(TransferNeedsTwoAccounts, row, accountIds);
            var balance, category := Fails(TransferUnbalanced, row, accountIds), Fails(CategoryRequired, row, accountIds);
            (c == Rejected(DateRequired) <==> date) &&
            (c == Rejected(DescriptionRequired) <==> !date && desc) &&
            (c == Rejected(AmountRequired) <==> !date && !desc && amount) &&
            (c == Rejected(TransferNeedsTwoAccounts) <==> !date && !desc && !amount && two) &&
            (c == Rejected(TransferUnbalanced) <==> !date && !desc && !amount && !two && balance) &&
            (c == Rejected(CategoryRequired) <==> !date && !desc && !amount && !two && !balance && category) &&
            (c == Accepted <==> !date && !desc && !amount && !two && !balance && !category)
  {
    FailsAsChecked(row, accountIds);
  }

  // ----- The lines a draft save sends -----

  /** `displayType === "expense" ? -Math.abs(raw) : raw`. */
  function DraftAmount(t: TxType, raw: int): int {
    if t == Expense then -Abs(raw) else raw
  }

  /** The lines `saveDraftRow` sends: one per account with a non-zero amount, in column order. */
  function DraftLines(row: Row, accountIds: seq<string>): (lines: seq<AmountLine>)
    ensures |lines| == |NonZeroIds(row, accountIds)|
    ensures forall i :: 0 <= i < |lines| ==>
              lines[i].accountId == NonZeroIds(row, accountIds)[i] &&
              lines[i].amount == DraftAmount(RowType(row), AmountFor(row, lines[i].accountId)) &&
              lines[i].amount != 0
  {
    if accountIds == [] then []
    else
      var init, last := accountIds[..|accountIds| - 1], accountIds[|accountIds| - 1];
      var raw := AmountFor(row, last);
      DraftLines(row, init) + (if raw != 0 then [AmountLine(last, DraftAmount(RowType(row), raw))] else [])
  }

  /** Unless the row is an expense, its lines add up to its total: leaving out zeros changes no sum. */
  lemma {:induction false} DraftLinesSum(row: Row, accountIds: seq<string>)
    requires RowType(row) != Expense
    ensures LinesSum(DraftLines(row, accountIds)) == RowTotal(row, accountIds)
  {
    if accountIds != [] {
      var init, last := accountIds[..|accountIds| - 1], accountIds[|accountIds| - 1];
      var raw := AmountFor(row, last);
      var tail := if raw != 0 then [AmountLine(last, raw)] else [];
      DraftLinesSum(row, init);
      LinesSumAppend(DraftLines(row, init), tail);
      if raw != 0 {
        assert tail[1..] == [];
      }
    }
  }

  /** What `createTransaction` is asked to insert for a draft. */
  datatype CreateRequest = CreateRequest(monthId: string, date: string, txType: TxType, description: string,
                                         categoryId: Option<string>, rowOrder: int, amounts: seq<AmountLine>)

  /** `draftRows.findIndex((r) => r.id === id)`: the first position, or -1. */
  function DraftIndex(drafts: seq<DraftRow>, id: string): (i: int)
    ensures -1 <= i < |drafts|
    ensures i >= 0 ==> drafts[i].id == id && forall j :: 0 <= j < i ==> drafts[j].id != id
    ensures i < 0 ==> forall j :: 0 <= j < |drafts| ==> drafts[j].id != id
  {
    if drafts == [] then -1
    else if drafts[0].id == id then 0
    else
      var j := DraftIndex(drafts[1..], id);
      if j < 0 then -1 else j + 1
  }

  datatype DraftOutcome = DraftRejected(error: SaveError) | Create(request: CreateRequest)

  /**
   * `saveDraftRow` up to the insert: the draft with its pending edit is
   * checked; if it passes, the request carries its trimmed date and
   * description, its type and category, its lines, and the row order after
   * the month's last row plus its position among the drafts.
   */
  function SaveDraft(d: DraftRow, edit: Option<RowEdit>, drafts: seq<DraftRow>, accountIds: seq<string>,
                     monthId: string, nextRowOrder: int): DraftOutcome
  {
    var display := MergeRow(Draft(d), edit);
    match Check(display, accountIds)
    case Rejected(e) => DraftRejected(e)
    case Accepted =>
      Create(CreateRequest(monthId, Trim(RowDate(display)), RowType(display), Trim(RowDescription(display)),
                           RowCategory(display), nextRowOrder + DraftIndex(drafts, d.id), DraftLines(display, accountIds)))
  }

  /**
   * A draft that is sent has a date and a description, at least one line,
   * no zero line, expense lines all negative, and a transfer's lines on at
   * least two accounts adding up to zero.
   */
  lemma SaveDraftSpec(d: DraftRow, edit: Option<RowEdit>, drafts: seq<DraftRow>, accountIds: seq<string>,
                      monthId: string, nextRowOrder: int)
    ensures var out := SaveDraft(d, edit, drafts, accountIds, monthId, nextRowOrder);
            out.Create? ==>
              var r := out.request;
              r.date != "" && r.description != "" && r.amounts != [] &&
              r.monthId == monthId &&
              (forall i :: 0 <= i < |r.amounts| ==> r.amounts[i].amount != 0) &&
              (r.txType == Expense ==> forall i :: 0 <= i < |r.amounts| ==> r.amounts[i].amount < 0) &&
              (r.txType == InternalTransfer ==> |r.amounts| >= 2 && LinesSum(r.amounts) == 0) &&
              (r.txType != InternalTransfer ==> Truthy(r.categoryId))
  {
    var display := MergeRow(Draft(d), edit);
    if Check(display, accountIds) == Accepted {
      AcceptedLines(display, accountIds);
    }
  }

  /** The lines of a row that passes the checks: some, none zero, negative for an expense, balanced for a transfer. */
  lemma AcceptedLines(row: Row, accountIds: seq<string>)
    requires Check(row, accountIds) == Accepted
    ensures var lines := DraftLines(row, accountIds);
            lines != [] &&
            (forall i :: 0 <= i < |lines| ==> lines[i].amount != 0) &&
            (RowType(row) == Expense ==> forall i :: 0 <= i < |lines| ==> lines[i].amount < 0) &&
            (RowType(row) == InternalTransfer ==> |lines| >= 2 && LinesSum(lines) == 0)
  {
    var lines := DraftLines(row, accountIds);
    assert |lines| == |NonZeroIds(row, accountIds)| >= 1;
    if RowType(row) == Expense {
      ExpenseLinesNegative(row, accountIds);
    } else if RowType(row) == InternalTransfer {
      assert |NonZeroIds(row, accountIds)| >= 2 && RowTotal(row, accountIds) == 0;
      DraftLinesSum(row, accountIds);
    }
  }

  lemma ExpenseLinesNegative(row: Row, accountIds: seq<string>)
    requires RowType(row) == Expense
    ensures var lines := DraftLines(row, accountIds);
            forall i :: 0 <= i < |lines| ==> lines[i].amount < 0
  {
    var lines := DraftLines(row, accountIds);
    forall i | 0 <= i < |lines| ensures lines[i].amount < 0 {
      assert lines[i].amount == DraftAmount(Expense, AmountFor(row, lines[i].accountId)) && lines[i].amount != 0;
    }
  }

  // ----- The update an edited row sends -----

  /** Some line of the list is on account `k`. */
  predicate HasLineOn(lines: seq<AmountLine>, k: string) {
    exists i :: 0 <= i < |lines| && lines[i].accountId == k
  }

  /** `Object.fromEntries` over lines: a later line on the same account replaces the value. */
  function FromEntries(lines: seq<AmountLine>): (m: OM.OMap<int>)
    ensures OM.Valid(m)
    ensures forall k :: k in m.values <==> HasLineOn(lines, k)
  {
    if lines == [] then OM.Empty()
    else
      var init, last := lines[..|lines| - 1], lines[|lines| - 1];
      AccountOnSnoc(lines);
      OM.Put(FromEntries(init), last.accountId, last.amount)
  }

  /** An account has a line in a list exactly when it has one before the last line, or the last line is on it. */
  lemma AccountOnSnoc(lines: seq<AmountLine>)
    requires lines != []
    ensures forall k :: HasLineOn(lines, k) <==>
                        HasLineOn(lines[..|lines| - 1], k) || lines[|lines| - 1].accountId == k
  {
    var init := lines[..|lines| - 1];
    forall k | HasLineOn(lines, k)
      ensures HasLineOn(init, k) || lines[|lines| - 1].accountId == k
    {
      var i :| 0 <= i < |lines| && lines[i].accountId == k;
      if i < |lines| - 1 {
        assert init[i].accountId == k;
      }
    }
    forall k | HasLineOn(init, k)
      ensures HasLineOn(lines, k)
    {
      var i :| 0 <= i < |init| && init[i].accountId == k;
      assert lines[i].accountId == k;
    }
  }

  /** Line `i` is the last line of the list on account `k`. */
  predicate IsLastLineOn(lines: seq<AmountLine>, i: int, k: string) {
    0 <= i < |lines| && lines[i].accountId == k && forall j :: i < j < |lines| ==> lines[j].accountId != k
  }

  /** Each account of `m` holds the amount of the last line on it. */
  ghost predicate HoldsLastAmounts(lines: seq<AmountLine>, m: OM.OMap<int>) {
    forall k :: k in m.values ==> exists i :: IsLastLineOn(lines, i, k) && m.values[k] == lines[i].amount
  }

  /** `Object.fromEntries` keeps, for each account, the amount of the last line on it. */
  lemma {:induction false} FromEntriesLast(lines: seq<AmountLine>)
    ensures HoldsLastAmounts(lines, FromEntries(lines))
  {
    if lines != [] {
      var init, last := lines[..|lines| - 1], lines[|lines| - 1];
      var m0, m := FromEntries(init), FromEntries(lines);
      FromEntriesLast(init);
      assert HoldsLastAmounts(init, m0);
      assert m.values == m0.values[last.accountId := last.amount];
      forall k | k in m.values ensures exists i :: IsLastLineOn(lines, i, k) && m.values[k] == lines[i].amount {
        if k == last.accountId {
          assert IsLastLineOn(lines, |lines| - 1, k);
        } else {
          assert k in m0.values && m.values[k] == m0.values[k];
          var i :| IsLastLineOn(init, i, k) && m0.values[k] == init[i].amount;
          LastLineOnSnoc(lines, i, k);
        }
      }
    }
  }

  /** The last line on `k` before a final line on another account is still the last one. */
  lemma LastLineOnSnoc(lines: seq<AmountLine>, i: int, k: string)
    requires lines != [] && lines[|lines| - 1].accountId != k
    requires IsLastLineOn(lines[..|lines| - 1], i, k)
    ensures IsLastLineOn(lines, i, k) && lines[i] == lines[..|lines| - 1][i]
  {
    var init := lines[..|lines| - 1];
    forall j | i < j < |lines| ensures lines[j].accountId != k {
      if j < |init| {
        assert lines[j] == init[j];
      }
    }
  }

  /** `{ ...m, ...edited }`: each edited key set in turn. */
  function Overlay(m: OM.OMap<int>, keys: seq<string>, values: map<string, int>): (r: OM.OMap<int>)
    requires OM.Valid(m) && forall k :: k in keys ==> k in values
    ensures OM.Valid(r)
    ensures forall k :: k in r.values <==> k in m.values || k in keys
    ensures forall k :: k in r.values ==> r.values[k] == if k in keys then values[k] else m.values[k]
  {
    if keys == [] then m
    else
      var init, last := keys[..|keys| - 1], keys[|keys| - 1];
      assert forall k :: k in init ==> k in keys;
      OM.Put(Overlay(m, init, values), last, values[last])
  }

  /** `fullAmounts`: the saved lines as a map, with the edited amounts laid over them. */
  function FullAmounts(orig: seq<AmountLine>, edited: Option<OM.OMap<int>>): (m: OM.OMap<int>)
    requires edited.Some? ==> OM.Valid(edited.value)
    ensures OM.Valid(m)
  {
    if edited.Some? then Overlay(FromEntries(orig), edited.value.keys, edited.value.values)
    else FromEntries(orig)
  }

  /**
   * `fullAmounts` holds the accounts that are edited or have a saved line;
   * an edited account holds its edited amount, any other the amount of its
   * last saved line.
   */
  lemma FullAmountsSpec(orig: seq<AmountLine>, edited: Option<OM.OMap<int>>)
    requires edited.Some? ==> OM.Valid(edited.value)
    ensures forall k :: k in FullAmounts(orig, edited).values <==>
                        (edited.Some? && k in edited.value.values) || HasLineOn(orig, k)
    ensures forall k :: k in FullAmounts(orig, edited).values ==>
              if edited.Some? && k in edited.value.values then FullAmounts(orig, edited).values[k] == edited.value.values[k]
              else exists i :: IsLastLineOn(orig, i, k) && FullAmounts(orig, edited).values[k] == orig[i].amount
  {
    var base, m := FromEntries(orig), FullAmounts(orig, edited);
    FromEntriesLast(orig);
    assert HoldsLastAmounts(orig, base);
    forall k | k in m.values
      ensures if edited.Some? && k in edited.value.values then m.values[k] == edited.value.values[k]
              else exists i :: IsLastLineOn(orig, i, k) && m.values[k] == orig[i].amount
    {
      if edited.Some? {
        var e := edited.value;
        assert k in e.keys <==> k in e.values;
        if k !in e.values {
          assert k in base.values && m.values[k] == base.values[k];
        }
      } else {
        assert k in base.values && m.values[k] == base.values[k];
      }
    }
    if edited.Some? {
      var e := edited.value;
      assert forall k :: k in e.keys <==> k in e.values;
    }
  }

  /** The amount an edited row sends: as it is for a transfer, `-|v|` for an expense, `|v|` otherwise. */
  function PayloadAmount(t: TxType, v: int): int {
    if t == InternalTransfer then v else if t == Expense then -Abs(v) else Abs(v)
  }

  /** The lines of `fullAmounts` that are not zero, each with the sign of the row's type. */
  function PayloadLines(keys: seq<string>, values: map<string, int>, t: TxType): seq<AmountLine>
    requires forall k :: k in keys ==> k in values
  {
    if keys == [] then []
    else
      var k := keys[0];
      (if values[k] != 0 then [AmountLine(k, PayloadAmount(t, values[k]))] else []) + PayloadLines(keys[1..], values, t)
  }

  /** Every payload line is on one of the keys, whose value is not zero, and carries that value with the type's sign. */
  lemma {:induction false} PayloadLinesSound(keys: seq<string>, values: map<string, int>, t: TxType)
    requires forall k :: k in keys ==> k in values
    ensures forall line :: line in PayloadLines(keys, values, t) ==>
              line.accountId in keys && values[line.accountId] != 0 &&
              line.amount == PayloadAmount(t, values[line.accountId]) && line.amount != 0
  {
    if keys != [] {
      var k := keys[0];
      var rest := PayloadLines(keys[1..], values, t);
      PayloadLinesSound(keys[1..], values, t);
      var head := if values[k] != 0 then [AmountLine(k, PayloadAmount(t, values[k]))] else [];
      var lines := head + rest;
      assert PayloadLines(keys, values, t) == lines;
      forall line | line in lines
        ensures line.accountId in keys && values[line.accountId] != 0 &&
                line.amount == PayloadAmount(t, values[line.accountId]) && line.amount != 0
      {
        if line !in rest {
          assert line == head[0] && keys[0] in keys;
        } else {
          assert line.accountId in keys[1..];
        }
      }
    }
  }

  /** No two lines are on the same account. */
  predicate DistinctAccounts(lines: seq<AmountLine>) {
    forall i, j :: 0 <= i < j < |lines| ==> lines[i].accountId != lines[j].accountId
  }

  /** Over distinct keys, no two payload lines are on the same account. */
  lemma {:induction false} PayloadLinesDistinct(keys: seq<string>, values: map<string, int>, t: TxType)
    requires forall k :: k in keys ==> k in values
    requires OM.Distinct(keys)
    ensures DistinctAccounts(PayloadLines(keys, values, t))
  {
    if keys != [] {
      var k := keys[0];
      var rest := PayloadLines(keys[1..], values, t);
      PayloadLinesDistinct(keys[1..], values, t);
      PayloadLinesSound(keys[1..], values, t);
      var head := if values[k] != 0 then [AmountLine(k, PayloadAmount(t, values[k]))] else [];
      var lines := head + rest;
      assert PayloadLines(keys, values, t) == lines;
      assert k !in keys[1..];
      assert DistinctAccounts(rest);
      forall i, j | 0 <= i < j < |lines| ensures lines[i].accountId != lines[j].accountId {
        if i < |head| {
          var line := rest[j - 1];
          assert lines[i].accountId == k && lines[j] == line;
          assert line in rest;
          assert line.accountId in keys[1..];
        } else {
          assert lines[i] == rest[i - |head|] && lines[j] == rest[j - |head|];
        }
      }
    }
  }

  /** Every key with a non-zero value has a payload line. */
  lemma {:induction false} PayloadLinesComplete(keys: seq<string>, values: map<string, int>, t: TxType)
    requires forall k :: k in keys ==> k in values
    ensures var lines := PayloadLines(keys, values, t);
            forall k :: k in keys && values[k] != 0 ==> exists i :: 0 <= i < |lines| && lines[i].accountId == k
  {
    if keys != [] {
      var k := keys[0];
      var rest := PayloadLines(keys[1..], values, t);
      PayloadLinesComplete(keys[1..], values, t);
      var head := if values[k] != 0 then [AmountLine(k, PayloadAmount(t, values[k]))] else [];
      var lines := head + rest;
      assert PayloadLines(keys, values, t) == lines;
      forall x | x in keys && values[x] != 0 ensures exists i :: 0 <= i < |lines| && lines[i].accountId == x {
        if x == k {
          assert lines[0].accountId == x;
        } else {
          assert x in keys[1..];
          var i :| 0 <= i < |rest| && rest[i].accountId == x;
          assert lines[|head| + i] == rest[i];
        }
      }
    }
  }

  /** The update `saveEditedRow` sends: only the edited fields, and the full amounts when amounts or type changed. */
  datatype UpdatePayload = UpdatePayload(id: string, date: Option<string>, txType: Option<TxType>,
                                         description: Option<string>, categoryId: Option<Option<string>>,
                                         amounts: Option<seq<AmountLine>>)

  datatype EditOutcome =
    | CloseEditor               // no pending edit: leave edit mode
    | NotFound                  // no saved row with that id
    | EditRejected(error: SaveError)
    | Update(payload: UpdatePayload)

  /** `find` on the saved rows of the table. */
  function FindSaved(rows: seq<Row>, id: string): (r: Option<Transaction>)
    ensures r.Some? ==> r.value.id == id && SavedRow(r.value) in rows
  {
    if rows == [] then None
    else if rows[0].SavedRow? && rows[0].tx.id == id then Some(rows[0].tx)
    else FindSaved(rows[1..], id)
  }

  /** `transactions.find((t) => t.id === id)`. */
  function FindTransaction(txs: seq<Transaction>, id: string): (r: Option<Transaction>)
    ensures r.Some? ==> r.value.id == id && r.value in txs
    ensures r.None? ==> forall i :: 0 <= i < |txs| ==> txs[i].id != id
  {
    if txs == [] then None
    else if txs[0].id == id then Some(txs[0])
    else FindTransaction(txs[1..], id)
  }

  /** Pending edits are well formed: their amount maps are valid. */
  predicate ValidEdit(e: RowEdit) {
    e.amounts.Some? ==> OM.Valid(e.amounts.value)
  }

  /** The payload of an edit, given the display type and the row as saved. */
  function Payload(rowId: string, e: RowEdit, displayType: TxType, orig: Transaction): UpdatePayload
    requires ValidEdit(e)
  {
    var amounts :=
      if e.amounts.Some? || e.txType.Some? then
        var full := FullAmounts(orig.amounts, e.amounts);
        Some(PayloadLines(full.keys, full.values, displayType))
      else None;
    UpdatePayload(rowId, e.date, e.txType, e.description, e.categoryId, amounts)
  }

  /**
   * `saveEditedRow` up to the update: nothing to save closes the editor; a
   * row that is not found stops; otherwise the displayed row is checked and,
   * if it passes, the update is built.
   */
  function SaveEdited(rowId: string, edits: OM.OMap<RowEdit>, rows: seq<Row>, txs: seq<Transaction>,
                      accountIds: seq<string>): EditOutcome
    requires forall k :: k in edits.values ==> ValidEdit(edits.values[k])
  {
    var edit := OM.Get(edits, rowId);
    if edit.None? || NoChange(edit.value) then CloseEditor
    else match FindSaved(rows, rowId)
      case None => NotFound
      case Some(t) =>
        var display := MergeRow(SavedRow(t), edit);
        match Check(display, accountIds)
        case Rejected(e) => EditRejected(e)
        case Accepted =>
          match FindTransaction(txs, rowId)
          case None => NotFound
          case Some(orig) => Update(Payload(rowId, edit.value, RowType(display), orig))
  }

  /**
   * An update carries exactly the edited fields; it sends amounts exactly
   * when the amounts or the type were edited, then every account the edited
   * or saved amounts hold with a non-zero value once more, each with the
   * sign of the row's type.
   */
  lemma PayloadSpec(rowId: string, e: RowEdit, displayType: TxType, orig: Transaction)
    requires ValidEdit(e)
    ensures var p := Payload(rowId, e, displayType, orig);
            p.id == rowId && p.date == e.date && p.txType == e.txType && p.description == e.description &&
            p.categoryId == e.categoryId && (p.amounts.Some? <==> e.amounts.Some? || e.txType.Some?)
    ensures var p := Payload(rowId, e, displayType, orig);
            p.amounts.Some? ==>
              var full := FullAmounts(orig.amounts, e.amounts);
              (forall i :: 0 <= i < |p.amounts.value| ==>
                 var line := p.amounts.value[i];
                 line.accountId in full.values && line.amount != 0 &&
                 line.amount == PayloadAmount(displayType, full.values[line.accountId]) &&
                 SentAmount(line, orig.amounts, e.amounts, displayType) &&
                 (displayType == Expense ==> line.amount < 0) &&
                 (displayType == Income || displayType == Adjustment ==> line.amount > 0)) &&
              (forall k :: k in full.values && full.values[k] != 0 ==>
                 exists i :: 0 <= i < |p.amounts.value| && p.amounts.value[i].accountId == k) &&
              DistinctAccounts(p.amounts.value)
  {
    if e.amounts.Some? || e.txType.Some? {
      var full := FullAmounts(orig.amounts, e.amounts);
      assert forall k :: k in full.values ==> k in full.keys;
      var lines := PayloadLines(full.keys, full.values, displayType);
      PayloadLinesSound(full.keys, full.values, displayType);
      PayloadLinesComplete(full.keys, full.values, displayType);
      PayloadLinesDistinct(full.keys, full.values, displayType);
      PayloadLinesSent(orig.amounts, e.amounts, displayType);
      forall i | 0 <= i < |lines|
        ensures lines[i].amount == PayloadAmount(displayType, full.values[lines[i].accountId])
        ensures SentAmount(lines[i], orig.amounts, e.amounts, displayType)
      {
        assert lines[i] in lines;
      }
    }
  }

  /**
   * A saved income row with +500 on one account, retyped and set back to
   * income without touching its amounts, sends that +500 line again.
   */
  lemma TypeOnlyResendsSaved(rowId: string, orig: Transaction, a: string)
    requires orig.amounts == [AmountLine(a, 500)]
    ensures Payload(rowId, NoEdit.(txType := Some(Income)), Income, orig).amounts == Some([AmountLine(a, 500)])
  {
    var lines := orig.amounts;
    var init := lines[..|lines| - 1];
    assert init == [];
    var empty := FromEntries(init);
    assert empty.keys == [] && empty.values == map[];
    var full := FromEntries(lines);
    assert full == OM.Put(empty, a, 500);
    assert full.keys == [a] && full.values[a] == 500;
    assert PayloadLines(full.keys, full.values, Income) == [AmountLine(a, 500)];
  }

  /**
   * The amount a line of an update carries: the edited amount of its
   * account, signed by the type; for an account the edit leaves alone, the
   * amount of the last saved line on it (as `Object.fromEntries` keeps it),
   * signed by the type.
   */
  ghost predicate SentAmount(line: AmountLine, orig: seq<AmountLine>, edited: Option<OM.OMap<int>>, t: TxType) {
    (edited.Some? && line.accountId in edited.value.values ==>
       line.amount == PayloadAmount(t, edited.value.values[line.accountId])) &&
    (!(edited.Some? && line.accountId in edited.value.values) ==>
       exists j :: IsLastLineOn(orig, j, line.accountId) && line.amount == PayloadAmount(t, orig[j].amount))
  }

  /** Every line built from `fullAmounts` carries the edited amount, or else the last saved one. */
  lemma PayloadLinesSent(orig: seq<AmountLine>, edited: Option<OM.OMap<int>>, t: TxType)
    requires edited.Some? ==> OM.Valid(edited.value)
    ensures forall line :: line in PayloadLines(FullAmounts(orig, edited).keys, FullAmounts(orig, edited).values, t) ==>
              SentAmount(line, orig, edited, t)
  {
    var full := FullAmounts(orig, edited);
    assert forall k :: k in full.keys ==> k in full.values;
    var lines := PayloadLines(full.keys, full.values, t);
    PayloadLinesSound(full.keys, full.values, t);
    FullAmountsSpec(orig, edited);
    forall line | line in lines ensures SentAmount(line, orig, edited, t) {
      var k := line.accountId;
      assert k in full.values;
      if !(edited.Some? && k in edited.value.values) {
        var j :| IsLastLineOn(orig, j, k) && full.values[k] == orig[j].amount;
      }
    }
  }

  /**
   * An edited row is sent only when its pending edit sets something, the
   * row is saved, and the displayed row passes every check.
   */
  lemma SaveEditedSpec(rowId: string, edits: OM.OMap<RowEdit>, rows: seq<Row>, txs: seq<Transaction>,
                       accountIds: seq<string>)
    requires forall k :: k in edits.values ==> ValidEdit(edits.values[k])
    ensures var out := SaveEdited(rowId, edits, rows, txs, accountIds);
            (out == CloseEditor <==> rowId !in edits.values || NoChange(edits.values[rowId])) &&
            (out.Update? ==>
               rowId in edits.values && !NoChange(edits.values[rowId]) && out.payload.id == rowId &&
               exists t :: SavedRow(t) in rows && t.id == rowId &&
                           Check(MergeRow(SavedRow(t), Some(edits.values[rowId])), accountIds) == Accepted)
  {
    var out := SaveEdited(rowId, edits, rows, txs, accountIds);
    if out.Update? {
      var t := FindSaved(rows, rowId).value;
      assert SavedRow(t) in rows && t.id == rowId;
    }
  }

  // ----- Type change -----

  /** `normalize`: `-|v|` for an expense, `|v|` for any other type. */
  function Normalize(t: TxType, v: int): int {
    if t == Expense then -Abs(v) else Abs(v)
  }

  /**
   * A normalised amount keeps its size, takes the type's sign, stays zero
   * when zero, and normalising twice is normalising once.
   */
  lemma NormalizeSpec(t: TxType, v: int)
    ensures Abs(Normalize(t, v)) == Abs(v)
    ensures t == Expense ==> Normalize(t, v) <= 0
    ensures t != Expense ==> Normalize(t, v) >= 0
    ensures Normalize(t, v) == 0 <==> v == 0
    ensures Normalize(t, Normalize(t, v)) == Normalize(t, v)
  {
  }

  /**
   * The amounts of a draft after a type change: each account column with a
   * non-zero amount gets that amount normalised; every other entry stays.
   */
  function NormalizedAmounts(amounts: OM.OMap<int>, accountIds: seq<string>, t: TxType): (m: OM.OMap<int>)
    requires OM.Valid(amounts)
    ensures OM.Valid(m)
  {
    if accountIds == [] then amounts
    else
      var init, last := accountIds[..|accountIds| - 1], accountIds[|accountIds| - 1];
      var m := NormalizedAmounts(amounts, init, t);
      var v := OM.GetOr(amounts, last, 0);
      if v != 0 then OM.Put(m, last, Normalize(t, v)) else m
  }

  /**
   * A draft's type change keeps its accounts and their order; an account of
   * the columns holds its amount normalised, any other entry its old amount.
   */
  lemma {:induction false} NormalizedAmountsSpec(amounts: OM.OMap<int>, accountIds: seq<string>, t: TxType)
    requires OM.Valid(amounts)
    ensures var m := NormalizedAmounts(amounts, accountIds, t);
            m.keys == amounts.keys &&
            (forall k :: k in m.values <==> k in amounts.values) &&
            (forall k :: k in amounts.values ==>
               m.values[k] == if k in accountIds then Normalize(t, amounts.values[k]) else amounts.values[k])
  {
    if accountIds != [] {
      var init, last := accountIds[..|accountIds| - 1], accountIds[|accountIds| - 1];
      NormalizedAmountsSpec(amounts, init, t);
      var before, v := NormalizedAmounts(amounts, init, t), OM.GetOr(amounts, last, 0);
      assert NormalizedAmounts(amounts, accountIds, t) == if v != 0 then OM.Put(before, last, Normalize(t, v)) else before;
      forall k | k in amounts.values
        ensures NormalizedAmounts(amounts, accountIds, t).values[k] ==
                  if k in accountIds then Normalize(t, amounts.values[k]) else amounts.values[k]
      {
        assert k in accountIds <==> k in init || k == last;
      }
    }
  }

  /** `currentAmounts`: each column's displayed amount normalised, for the columns with one. */
  function CurrentAmounts(display: Row, accountIds: seq<string>, t: TxType): (m: OM.OMap<int>)
    ensures OM.Valid(m)
  {
    if accountIds == [] then OM.Empty()
    else
      var init, last := accountIds[..|accountIds| - 1], accountIds[|accountIds| - 1];
      var m := CurrentAmounts(display, init, t);
      var v := AmountFor(display, last);
      if v != 0 then OM.Put(m, last, Normalize(t, v)) else m
  }

  /**
   * A saved row's type change shows, in every column, its displayed amount
   * normalised (zero stays zero), and sets nothing outside the columns.
   */
  lemma {:induction false} CurrentAmountsSpec(display: Row, accountIds: seq<string>, t: TxType)
    ensures var m := CurrentAmounts(display, accountIds, t);
            (forall k :: k in m.values ==> k in accountIds) &&
            (forall k :: k in accountIds ==> OM.GetOr(m, k, 0) == Normalize(t, AmountFor(display, k)))
  {
    if accountIds != [] {
      var init, last := accountIds[..|accountIds| - 1], accountIds[|accountIds| - 1];
      CurrentAmountsSpec(display, init, t);
      var before, v := CurrentAmounts(display, init, t), AmountFor(display, last);
      var m := CurrentAmounts(display, accountIds, t);
      assert m == if v != 0 then OM.Put(before, last, Normalize(t, v)) else before;
      if v != 0 {
        OM.GetOrPut(before, last, Normalize(t, v));
      }
      forall k | k in accountIds
        ensures OM.GetOr(m, k, 0) == Normalize(t, AmountFor(display, k))
      {
        if k != last {
          assert k in init;
        }
      }
      assert forall k :: k in init ==> k in accountIds;
    }
  }

  /** The edit a saved row's type change records: the type, and the amounts when any column has one. */
  function TypeChangeEdit(display: Row, accountIds: seq<string>, t: TxType): RowEdit {
    var current := CurrentAmounts(display, accountIds, t);
    RowEdit(None, Some(t), None, None, if current.keys != [] then Some(current) else None)
  }

  // ----- Transfer confirm -----

  /** `newAmounts`: every column 0, then `-|amt|` from one account and `|amt|` to the other. */
  function TransferAmounts(accountIds: seq<string>, from: string, to: string, amt: int): (m: OM.OMap<int>)
    ensures OM.Valid(m)
  {
    OM.Put(OM.Put(Zeros(accountIds), from, -Abs(amt)), to, Abs(amt))
  }

  function Zeros(accountIds: seq<string>): (m: OM.OMap<int>)
    ensures OM.Valid(m)
    ensures forall k :: k in m.values <==> k in accountIds
    ensures forall k :: k in m.values ==> m.values[k] == 0
  {
    if accountIds == [] then OM.Empty()
    else OM.Put(Zeros(accountIds[..|accountIds| - 1]), accountIds[|accountIds| - 1], 0)
  }

  /**
   * For two different accounts and a positive amount, the transfer takes
   * the amount from one account, gives it to the other, leaves every other
   * column at 0, and so the row it is written to totals 0 over columns
   * that hold both accounts.
   */
  lemma TransferAmountsSpec(accountIds: seq<string>, from: string, to: string, amt: int, row: Row)
    requires from != to && amt > 0
    requires OM.Distinct(accountIds) && from in accountIds && to in accountIds
    requires forall k :: k in accountIds ==> AmountFor(row, k) == OM.GetOr(TransferAmounts(accountIds, from, to, amt), k, 0)
    ensures var m := TransferAmounts(accountIds, from, to, amt);
            OM.GetOr(m, from, 0) == -amt && OM.GetOr(m, to, 0) == amt &&
            (forall k :: k in accountIds && k != from && k != to ==> OM.GetOr(m, k, 0) == 0) &&
            (forall k :: k in m.values <==> k in accountIds)
    ensures RowTotal(row, accountIds) == 0
  {
    TransferAmountsValues(accountIds, from, to, amt);
    RowTotalTwo(row, accountIds, from, to);
  }

  lemma TransferAmountsValues(accountIds: seq<string>, from: string, to: string, amt: int)
    requires from != to && amt > 0 && from in accountIds && to in accountIds
    ensures var m := TransferAmounts(accountIds, from, to, amt);
            OM.GetOr(m, from, 0) == -amt && OM.GetOr(m, to, 0) == amt &&
            (forall k :: k in accountIds && k != from && k != to ==> OM.GetOr(m, k, 0) == 0) &&
            (forall k :: k in m.values <==> k in accountIds)
  {
    var z := Zeros(accountIds);
    OM.PutTwice(z, from, -Abs(amt), to, Abs(amt));
  }

  /** `accounts.find((a) => a.id === id)?.name ?? ""`. */
  function AccountName(accounts: seq<Account>, id: string): string {
    if accounts == [] then ""
    else if accounts[0].id == id then accounts[0].name
    else AccountName(accounts[1..], id)
  }

  /** `${fromName} → ${toName}`. */
  function TransferDescription(accounts: seq<Account>, from: string, to: string): string {
    AccountName(accounts, from) + " → " + AccountName(accounts, to)
  }
}
