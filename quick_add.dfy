/**
 * The quick-add sheet: the amount typed in the form is read with a decimal
 * comma or dot, the amount lines of the new transaction are built from its
 * type (one line for income, expense and adjustment, two balancing lines for
 * a transfer), and the form is cleared once the transaction is created.
 */
module QuickAdd {
  import opened Ledger
  import opened Text
  import opened Numbers

  const NoDescription: string := "(no description)"

  /** `parseAmount`: trimmed, first comma read as a decimal point, unreadable text read as 0. */
  function ParseAmount(s: string): int {
    match NumberOf(ReplaceFirst(Trim(s), ',', '.'))
    case Some(v) => v
    case None => 0
  }

  /** An amount typed with a decimal comma reads back as that amount. */
  lemma ParseAmountComma(c: int)
    ensures ParseAmount(DecimalText(c, ',')) == c
  {
    var s := DecimalText(c, ',');
    DecimalTextTrimmed(c, ',');
    assert Trim(s) == s;
    CommaText(c);
    assert ReplaceFirst(Trim(s), ',', '.') == JsString(c);
    NumberOfJsString(c);
    assert NumberOf(JsString(c)) == Some(c);
  }

  /** An amount typed with a decimal point reads back as that amount too. */
  lemma ParseAmountDot(c: int)
    ensures ParseAmount(JsString(c)) == c
  {
    var s := JsString(c);
    DecimalTextTrimmed(c, '.');
    assert Trim(s) == s;
    NoCommaInJsString(c);
    assert FirstIndex(s, ',') < 0;
    assert ReplaceFirst(s, ',', '.') == s;
    NumberOfJsString(c);
    assert NumberOf(s) == Some(c);
  }

  /** `chosen || accounts[k]?.id`, where an empty id counts as none. */
  function Choose(chosen: string, accounts: seq<Account>, k: nat): (r: Option<string>)
    ensures r.Some? ==> r.value != ""
    ensures chosen != "" ==> r == Some(chosen)
    ensures chosen == "" && k >= |accounts| ==> r.None?
  {
    if chosen != "" then Some(chosen)
    else if k < |accounts| && accounts[k].id != "" then Some(accounts[k].id)
    else None
  }

  /** The form fields `handleSubmit` reads. */
  datatype Form = Form(txType: TxType, accountId: string, amount: string,
                       transferFromId: string, transferToId: string, transferAmount: string)

  /** The amount lines the if-chain of `handleSubmit` leaves in `amounts`. */
  function Lines(f: Form, accounts: seq<Account>): seq<AmountLine> {
    LinesOf(f, accounts, ParseAmount(f.amount), ParseAmount(f.transferAmount))
  }

  /** The same, with `parseAmount(amount)` and `parseAmount(transferAmount)` already read. */
  function LinesOf(f: Form, accounts: seq<Account>, value: int, transferValue: int): seq<AmountLine> {
    match f.txType
    case Income =>
      var acc := Choose(f.accountId, accounts, 0);
      if acc.Some? && value > 0 then [AmountLine(acc.value, value)] else []
    case Expense =>
      var acc := Choose(f.accountId, accounts, 0);
      if acc.Some? && value > 0 then [AmountLine(acc.value, -value)] else []
    case InternalTransfer =>
      var from, to := Choose(f.transferFromId, accounts, 0), Choose(f.transferToId, accounts, 1);
      if from.Some? && to.Some? && from != to && transferValue > 0 then
        [AmountLine(from.value, -transferValue), AmountLine(to.value, transferValue)]
      else []
    case Adjustment =>
      var acc := Choose(f.accountId, accounts, 0);
      if acc.Some? && value != 0 then [AmountLine(acc.value, value)] else []
  }

  lemma LinesRead(f: Form, accounts: seq<Account>, value: int, transferValue: int)
    requires value == ParseAmount(f.amount) && transferValue == ParseAmount(f.transferAmount)
    ensures Lines(f, accounts) == LinesOf(f, accounts, value, transferValue)
  {
  }

  /**
   * The if-chain of `handleSubmit` that reassigns `amounts`, given what
   * `parseAmount` reads from the amount and the transfer amount.
   */
  method BuildAmounts(f: Form, accounts: seq<Account>, value: int, transferValue: int)
    returns (amounts: seq<AmountLine>)
    ensures amounts == LinesOf(f, accounts, value, transferValue)
  {
    amounts := [];
    if f.txType == Income {
      var acc := Choose(f.accountId, accounts, 0);
      if acc.Some? && value > 0 {
        amounts := [AmountLine(acc.value, value)];
      }
    } else if f.txType == Expense {
      var acc := Choose(f.accountId, accounts, 0);
      if acc.Some? && value > 0 {
        amounts := [AmountLine(acc.value, -value)];
      }
    } else if f.txType == InternalTransfer {
      var from := Choose(f.transferFromId, accounts, 0);
      var to := Choose(f.transferToId, accounts, 1);
      if from.Some? && to.Some? && from != to && transferValue > 0 {
        amounts := [AmountLine(from.value, -transferValue), AmountLine(to.value, transferValue)];
      }
    } else {
      var acc := Choose(f.accountId, accounts, 0);
      if acc.Some? && value != 0 {
        amounts := [AmountLine(acc.value, value)];
      }
    }
  }

  /**
   * Income and expense give one line of the typed amount, positive for
   * income and negative for an expense, exactly when there is an account
   * and the amount is positive; an adjustment gives one line of the signed
   * amount exactly when it is not zero.
   */
  lemma SingleLineSpec(f: Form, accounts: seq<Account>)
    requires f.txType != InternalTransfer
    ensures var lines, v := Lines(f, accounts), ParseAmount(f.amount);
            var acc := Choose(f.accountId, accounts, 0);
            (lines != [] <==> acc.Some? && (if f.txType == Adjustment then v != 0 else v > 0)) &&
            (lines != [] ==> |lines| == 1 && lines[0].accountId == acc.value &&
                             Abs(lines[0].amount) == Abs(v) &&
                             (f.txType == Income ==> lines[0].amount > 0) &&
                             (f.txType == Expense ==> lines[0].amount < 0) &&
                             (f.txType == Adjustment ==> lines[0].amount == v))
  {
  }

  /**
   * A transfer gives two lines, out of one account and into a different one,
   * that cancel out, exactly when both accounts are known and differ and the
   * amount is positive.
   */
  lemma TransferSpec(f: Form, accounts: seq<Account>)
    requires f.txType == InternalTransfer
    ensures var lines, v := Lines(f, accounts), ParseAmount(f.transferAmount);
            var from, to := Choose(f.transferFromId, accounts, 0), Choose(f.transferToId, accounts, 1);
            (lines != [] <==> from.Some? && to.Some? && from != to && v > 0) &&
            (lines != [] ==> |lines| == 2 && lines[0].accountId == from.value && lines[1].accountId == to.value &&
                             lines[0].accountId != lines[1].accountId &&
                             lines[0].amount == -v && lines[1].amount == v && LinesSum(lines) == 0)
  {
    var value, transferValue := ParseAmount(f.amount), ParseAmount(f.transferAmount);
    LinesRead(f, accounts, value, transferValue);
    TransferLines(f, accounts, value, transferValue);
  }

  lemma TransferLines(f: Form, accounts: seq<Account>, value: int, transferValue: int)
    requires f.txType == InternalTransfer
    ensures var lines := LinesOf(f, accounts, value, transferValue);
            var from, to := Choose(f.transferFromId, accounts, 0), Choose(f.transferToId, accounts, 1);
            (lines != [] <==> from.Some? && to.Some? && from != to && transferValue > 0) &&
            (lines != [] ==> |lines| == 2 && lines[0].accountId == from.value && lines[1].accountId == to.value &&
                             lines[0].accountId != lines[1].accountId &&
                             lines[0].amount == -transferValue && lines[1].amount == transferValue &&
                             LinesSum(lines) == 0)
  {
    var lines := LinesOf(f, accounts, value, transferValue);
    if lines != [] {
      assert lines[1..][1..] == [];
      assert LinesSum(lines) == lines[0].amount + LinesSum(lines[1..]);
      assert LinesSum(lines[1..]) == lines[1].amount + LinesSum(lines[1..][1..]);
    }
  }

  /** No line the sheet builds is zero. */
  lemma NoZeroLines(f: Form, accounts: seq<Account>, value: int, transferValue: int)
    ensures var lines := LinesOf(f, accounts, value, transferValue);
            forall i :: 0 <= i < |lines| ==> lines[i].amount != 0
  {
  }

  /** `description.trim() || "(no description)"`. */
  function Description(d: string): (r: string)
    ensures r != ""
  {
    if Trim(d) == "" then NoDescription else Trim(d)
  }

  /** A description made only of white space (or empty) is replaced by the placeholder. */
  lemma DescriptionSpec(d: string)
    ensures Description(d) == NoDescription <==>
              (forall i :: 0 <= i < |d| ==> IsSpace(d[i])) || Trim(d) == NoDescription
  {
    BlankIffAllSpace(d);
  }

  /** What `createTransaction` is asked to insert. */
  datatype NewTransaction = NewTransaction(monthId: string, date: string, txType: TxType, description: string,
                                           rowOrder: int, amounts: seq<AmountLine>)

  /** What `handleSubmit` sends: nothing without accounts or lines, else the new transaction. */
  function RequestFor(f: Form, date: string, description: string, monthId: string, accounts: seq<Account>,
                      nextRowOrder: int): Option<NewTransaction>
  {
    if accounts == [] || Lines(f, accounts) == [] then None
    else Some(NewTransaction(monthId, date, f.txType, Description(description), nextRowOrder, Lines(f, accounts)))
  }

  /** The body of `handleSubmit` up to the insert, over the values the form holds. */
  method Prepare(f: Form, date: string, description: string, monthId: string, accounts: seq<Account>,
                 nextRowOrder: int) returns (request: Option<NewTransaction>)
    ensures request == RequestFor(f, date, description, monthId, accounts, nextRowOrder)
  {
    if accounts == [] {
      return None;
    }
    var value, transferValue := ParseAmount(f.amount), ParseAmount(f.transferAmount);
    var amounts := BuildAmounts(f, accounts, value, transferValue);
    LinesRead(f, accounts, value, transferValue);
    if amounts == [] {
      return None;
    }
    var text := Description(description);
    request := Some(NewTransaction(monthId, date, f.txType, text, nextRowOrder, amounts));
  }

  /**
   * A transaction is sent exactly when there are accounts and lines, and it
   * carries the form's type, the built lines and a non-empty description.
   */
  lemma RequestSpec(f: Form, date: string, description: string, monthId: string, accounts: seq<Account>,
                    nextRowOrder: int)
    ensures var r := RequestFor(f, date, description, monthId, accounts, nextRowOrder);
            (r.Some? <==> accounts != [] && Lines(f, accounts) != []) &&
            (r.Some? ==> r.value.txType == f.txType && r.value.amounts == Lines(f, accounts) &&
                         r.value.amounts != [] && r.value.description != "" &&
                         r.value.monthId == monthId && r.value.rowOrder == nextRowOrder)
  {
  }
}
