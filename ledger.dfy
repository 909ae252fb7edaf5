/**
 * The bookkeeping records that every report and every editing rule reads:
 * months, accounts, categories, opening balances and transactions with their
 * per-account amount lines. Amounts are integer cents, so every sum is exact.
 */
module Ledger {

  datatype Option<T> = None | Some(value: T)

  /** The four kinds of movement a transaction can record. */
  datatype TxType = Income | Expense | InternalTransfer | Adjustment

  /** How an expense was paid; `OtherMethod` stands for any other stored value (or none). */
  datatype PaymentMethod = BankCash | CreditCard | OtherMethod

  datatype Month = Month(id: string, year: int, month: int, monthLabel: string)

  datatype Account = Account(id: string, name: string, isActive: bool)

  datatype Category = Category(id: string, name: string)

  datatype Subcategory = Subcategory(id: string, categoryId: string, name: string)

  datatype IncomeCategory = IncomeCategory(id: string, name: string)

  datatype OpeningBalance = OpeningBalance(monthId: string, accountId: string, amount: int)

  datatype AmountLine = AmountLine(accountId: string, amount: int)

  /**
   * The rows the reports fetch, each table in the order its query returns it:
   * months by year and month, accounts and categories by name, income
   * categories and subcategories by display order.
   */
  datatype Tables = Tables(
    months: seq<Month>,
    accounts: seq<Account>,
    categories: seq<Category>,
    subcategories: seq<Subcategory>,
    incomeCategories: seq<IncomeCategory>,
    transactions: seq<Transaction>,
    openingBalances: seq<OpeningBalance>)

  datatype Transaction = Transaction(
    id: string,
    monthId: string,
    date: string,
    txType: TxType,
    description: string,
    categoryId: Option<string>,
    subcategoryId: Option<string>,
    incomeCategoryId: Option<string>,
    accrualMonthId: Option<string>,
    paymentMethod: PaymentMethod,
    isBusinessExpense: bool,
    rowOrder: int,
    amounts: seq<AmountLine>)

  /** Name of the row that collects amounts without a known category or subcategory. */
  const UnclassifiedName: string := "Sin clasificar"

  /** An optional id is "truthy" when it is present and not the empty string. */
  predicate Truthy(o: Option<string>) {
    o.Some? && o.value != ""
  }

  function Abs(x: int): (r: int)
    ensures r >= 0 && (r == x || r == -x)
  {
    if x < 0 then -x else x
  }

  /** Sum of the amounts of a list of lines. */
  function LinesSum(lines: seq<AmountLine>): int {
    if lines == [] then 0 else lines[0].amount + LinesSum(lines[1..])
  }

  /** The signed net of a transaction: the sum of all its lines. */
  function Net(t: Transaction): int {
    LinesSum(t.amounts)
  }

  /** The amount of the first line booked on `accountId`, if any. */
  function FirstLineFor(lines: seq<AmountLine>, accountId: string): (r: Option<int>)
    ensures r.Some? <==> exists i :: 0 <= i < |lines| && lines[i].accountId == accountId
    ensures r.Some? ==> exists i :: 0 <= i < |lines| && lines[i].accountId == accountId && lines[i].amount == r.value
                                    && forall j :: 0 <= j < i ==> lines[j].accountId != accountId
  {
    if lines == [] then None
    else if lines[0].accountId == accountId then Some(lines[0].amount)
    else
      var r := FirstLineFor(lines[1..], accountId);
      assert forall i :: 1 <= i < |lines| ==> lines[i] == lines[1..][i - 1];
      if r.Some? then
        var k :| 0 <= k < |lines[1..]| && lines[1..][k].accountId == accountId && lines[1..][k].amount == r.value
                 && forall j :: 0 <= j < k ==> lines[1..][j].accountId != accountId;
        assert lines[k + 1] == lines[1..][k];
        assert forall j :: 0 <= j < k + 1 ==> lines[j].accountId != accountId by {
          forall j | 0 <= j < k + 1 ensures lines[j].accountId != accountId {
            if j > 0 { assert lines[j] == lines[1..][j - 1]; }
          }
        }
        r
      else r
  }

  /** The amount `accountId` receives from one line list: its first line, or 0. */
  function LineAmountOr0(lines: seq<AmountLine>, accountId: string): int {
    match FirstLineFor(lines, accountId)
    case Some(a) => a
    case None => 0
  }

  lemma {:induction false} LinesSumAppend(a: seq<AmountLine>, b: seq<AmountLine>)
    ensures LinesSum(a + b) == LinesSum(a) + LinesSum(b)
  {
    if a == [] {
      assert a + b == b;
    } else {
      assert (a + b)[1..] == a[1..] + b;
      LinesSumAppend(a[1..], b);
    }
  }

  /** `s.filter(p)`: the elements satisfying `p`, in their order. */
  function Filter<T>(s: seq<T>, p: T -> bool): (r: seq<T>)
    ensures |r| <= |s|
    ensures forall i :: 0 <= i < |r| ==> r[i] in s && p(r[i])
    ensures forall i :: 0 <= i < |s| && p(s[i]) ==> s[i] in r
  {
    if s == [] then []
    else
      var rest := Filter(s[1..], p);
      assert forall i :: 1 <= i < |s| ==> s[i] == s[1..][i - 1];
      if p(s[0]) then [s[0]] + rest else rest
  }

  /** Filtering twice by the same predicate is filtering once. */
  lemma {:induction false} FilterIdempotent<T>(s: seq<T>, p: T -> bool)
    ensures Filter(Filter(s, p), p) == Filter(s, p)
  {
    if s != [] {
      FilterIdempotent(s[1..], p);
      if p(s[0]) {
        assert ([s[0]] + Filter(s[1..], p))[1..] == Filter(s[1..], p);
      }
    }
  }

  lemma {:induction false} FilterAppend<T>(a: seq<T>, b: seq<T>, p: T -> bool)
    ensures Filter(a + b, p) == Filter(a, p) + Filter(b, p)
  {
    if a == [] {
      assert a + b == b;
    } else {
      assert (a + b)[1..] == a[1..] + b;
      FilterAppend(a[1..], b, p);
    }
  }

  /** Transactions of one type. */
  function OfType(kind: TxType): Transaction -> bool {
    (t: Transaction) => t.txType == kind
  }

  /** The sum of the signed nets of some transactions. */
  function NetSum(txs: seq<Transaction>): int {
    if txs == [] then 0 else Net(txs[0]) + NetSum(txs[1..])
  }

  /** The sum of the absolute nets of some transactions, as the expense reports add them. */
  function AbsNetSum(txs: seq<Transaction>): (r: int)
    ensures r >= 0
  {
    if txs == [] then 0 else Abs(Net(txs[0])) + AbsNetSum(txs[1..])
  }

  lemma {:induction false} NetSumAppend(a: seq<Transaction>, b: seq<Transaction>)
    ensures NetSum(a + b) == NetSum(a) + NetSum(b)
    ensures AbsNetSum(a + b) == AbsNetSum(a) + AbsNetSum(b)
  {
    if a == [] {
      assert a + b == b;
    } else {
      assert (a + b)[1..] == a[1..] + b;
      NetSumAppend(a[1..], b);
    }
  }

  /** The net of all but the last transaction, plus the last one's. */
  lemma NetSumSnoc(txs: seq<Transaction>)
    requires txs != []
    ensures NetSum(txs) == NetSum(txs[..|txs| - 1]) + Net(txs[|txs| - 1])
  {
    var init, last := txs[..|txs| - 1], txs[|txs| - 1];
    assert txs == init + [last];
    NetSumAppend(init, [last]);
    assert [last][1..] == [];
  }
}
