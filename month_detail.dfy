/**
 * The monthly expense detail: for one month, each expense category (in the
 * fixed priority order) broken down by subcategory and by payment method,
 * with an unclassified row for transactions whose subcategory is missing or
 * belongs to another category, and grand totals over all categories.
 * Categories without expense transactions are omitted; a missing month gives
 * no report.
 */
module MonthDetail {
  import opened Ledger
  import opened CategoryOrder

  datatype SubRow = SubRow(subcategoryId: Option<string>, name: string, bankCash: int, creditCard: int, total: int)

  datatype CategoryDetail = CategoryDetail(
    categoryId: string,
    name: string,
    subcategories: seq<SubRow>,
    bankCashTotal: int,
    creditCardTotal: int,
    total: int)

  datatype MonthDetailReport = MonthDetailReport(
    month: Month,
    categories: seq<CategoryDetail>,
    grandBankCash: int,
    grandCreditCard: int,
    grandTotal: int)

  // ----- Filters -----

  function OfCategory(categoryId: string): Transaction -> bool {
    (t: Transaction) => t.categoryId == Some(categoryId)
  }

  function OfSubcategory(subcategoryId: string): Transaction -> bool {
    (t: Transaction) => t.subcategoryId == Some(subcategoryId)
  }

  function PaidBy(pm: PaymentMethod): Transaction -> bool {
    (t: Transaction) => t.paymentMethod == pm
  }

  function SubcategoryOf(categoryId: string): Subcategory -> bool {
    (s: Subcategory) => s.categoryId == categoryId
  }

  /** The transaction names one of the subcategories `subs`. */
  predicate Matched(subs: seq<Subcategory>, t: Transaction) {
    t.subcategoryId.Some? && exists i :: 0 <= i < |subs| && subs[i].id == t.subcategoryId.value
  }

  /** No subcategory, or one that is not among the category's subcategories. */
  function Unclassified(subs: seq<Subcategory>): Transaction -> bool {
    (t: Transaction) => !Truthy(t.subcategoryId) || !Matched(subs, t)
  }

  // ----- Cells -----

  /** What some transactions paid with `pm`: the sum of their absolute nets. */
  function Spent(txs: seq<Transaction>, pm: PaymentMethod): (r: int)
    ensures r >= 0
  {
    AbsNetSum(Filter(txs, PaidBy(pm)))
  }

  function SubRowOf(txs: seq<Transaction>, id: Option<string>, name: string): (r: SubRow)
    ensures r.bankCash >= 0 && r.creditCard >= 0
    ensures r.total == r.bankCash + r.creditCard
  {
    var bankCash := Spent(txs, BankCash);
    var creditCard := Spent(txs, CreditCard);
    SubRow(id, name, bankCash, creditCard, bankCash + creditCard)
  }

  /** One row per subcategory of the category, in their order. */
  function SubcategoryRows(catTxs: seq<Transaction>, catSubs: seq<Subcategory>): (rows: seq<SubRow>)
    ensures |rows| == |catSubs|
    ensures forall i :: 0 <= i < |catSubs| ==>
              rows[i] == SubRowOf(Filter(catTxs, OfSubcategory(catSubs[i].id)), Some(catSubs[i].id), catSubs[i].name)
  {
    if catSubs == [] then []
    else
      [SubRowOf(Filter(catTxs, OfSubcategory(catSubs[0].id)), Some(catSubs[0].id), catSubs[0].name)]
      + SubcategoryRows(catTxs, catSubs[1..])
  }

  function BankCashSum(rows: seq<SubRow>): int {
    if rows == [] then 0 else rows[0].bankCash + BankCashSum(rows[1..])
  }

  function CreditCardSum(rows: seq<SubRow>): int {
    if rows == [] then 0 else rows[0].creditCard + CreditCardSum(rows[1..])
  }

  /** The subcategory rows of a category, followed by the unclassified row when it is non-zero. */
  function DetailRows(catTxs: seq<Transaction>, catSubs: seq<Subcategory>): seq<SubRow> {
    var rows := SubcategoryRows(catTxs, catSubs);
    var unclassifiedTxs := Filter(catTxs, Unclassified(catSubs));
    var u := SubRowOf(unclassifiedTxs, None, UnclassifiedName);
    if |unclassifiedTxs| > 0 && (u.bankCash != 0 || u.creditCard != 0) then rows + [u] else rows
  }

  /** The detail of one category, or None when it has no expense transaction this month. */
  function CategoryDetailOf(cat: Category, subcategories: seq<Subcategory>, expenses: seq<Transaction>): (r: Option<CategoryDetail>)
    ensures r.None? <==> Filter(expenses, OfCategory(cat.id)) == []
    ensures r.Some? ==> r.value.categoryId == cat.id && r.value.name == cat.name
    ensures r.Some? ==> r.value.total == r.value.bankCashTotal + r.value.creditCardTotal
  {
    var catTxs := Filter(expenses, OfCategory(cat.id));
    if |catTxs| == 0 then None
    else Some(DetailOf(cat, DetailRows(catTxs, Filter(subcategories, SubcategoryOf(cat.id)))))
  }

  /** A category's detail over its rows: the totals add the rows up, per payment method. */
  function DetailOf(cat: Category, subs: seq<SubRow>): CategoryDetail {
    var bankCash := BankCashSum(subs);
    var creditCard := CreditCardSum(subs);
    CategoryDetail(cat.id, cat.name, subs, bankCash, creditCard, bankCash + creditCard)
  }

  /** `subcategories.push` of the unclassified row, step by step. */
  method BuildCategoryDetail(cat: Category, subcategories: seq<Subcategory>, expenses: seq<Transaction>)
    returns (r: Option<CategoryDetail>)
    ensures r == CategoryDetailOf(cat, subcategories, expenses)
  {
    var catTxs := Filter(expenses, OfCategory(cat.id));
    if |catTxs| == 0 {
      return None;
    }
    var catSubs := Filter(subcategories, SubcategoryOf(cat.id));
    var subs := SubcategoryRows(catTxs, catSubs);
    var unclassifiedTxs := Filter(catTxs, Unclassified(catSubs));
    if |unclassifiedTxs| > 0 {
      var u := SubRowOf(unclassifiedTxs, None, UnclassifiedName);
      if u.bankCash != 0 || u.creditCard != 0 {
        subs := subs + [u];
      }
    }
    assert subs == DetailRows(catTxs, catSubs);
    r := Some(DetailOf(cat, subs));
  }

  /** The details of the categories that have expenses, in the categories' order. */
  function Details(cats: seq<Category>, subcategories: seq<Subcategory>, expenses: seq<Transaction>): seq<CategoryDetail> {
    if cats == [] then []
    else
      var init := Details(cats[..|cats| - 1], subcategories, expenses);
      match CategoryDetailOf(cats[|cats| - 1], subcategories, expenses)
      case None => init
      case Some(d) => init + [d]
  }

  lemma DetailsNext(cats: seq<Category>, i: nat, subcategories: seq<Subcategory>, expenses: seq<Transaction>,
                    d: Option<CategoryDetail>)
    requires i < |cats| && d == CategoryDetailOf(cats[i], subcategories, expenses)
    ensures Details(cats[..i + 1], subcategories, expenses) ==
              if d.Some? then Details(cats[..i], subcategories, expenses) + [d.value]
              else Details(cats[..i], subcategories, expenses)
  {
    assert cats[..i + 1][..i] == cats[..i];
  }

  function BankCashTotals(details: seq<CategoryDetail>): int {
    if details == [] then 0 else BankCashTotals(details[..|details| - 1]) + details[|details| - 1].bankCashTotal
  }

  function CreditCardTotals(details: seq<CategoryDetail>): int {
    if details == [] then 0 else CreditCardTotals(details[..|details| - 1]) + details[|details| - 1].creditCardTotal
  }

  lemma TotalsSnoc(details: seq<CategoryDetail>, d: CategoryDetail)
    ensures BankCashTotals(details + [d]) == BankCashTotals(details) + d.bankCashTotal
    ensures CreditCardTotals(details + [d]) == CreditCardTotals(details) + d.creditCardTotal
  {
    assert (details + [d])[..|details|] == details;
  }

  /** One step of the loop: the next category's detail, when it has one, extends the details and the totals. */
  lemma CollectStep(cats: seq<Category>, i: nat, subcategories: seq<Subcategory>, expenses: seq<Transaction>,
                    details: seq<CategoryDetail>, d: Option<CategoryDetail>)
    requires i < |cats| && details == Details(cats[..i], subcategories, expenses)
    requires d == CategoryDetailOf(cats[i], subcategories, expenses)
    ensures d.None? ==> Details(cats[..i + 1], subcategories, expenses) == details
    ensures d.Some? ==> Details(cats[..i + 1], subcategories, expenses) == details + [d.value]
    ensures d.Some? ==> BankCashTotals(details + [d.value]) == BankCashTotals(details) + d.value.bankCashTotal
    ensures d.Some? ==> CreditCardTotals(details + [d.value]) == CreditCardTotals(details) + d.value.creditCardTotal
  {
    DetailsNext(cats, i, subcategories, expenses, d);
    if d.Some? {
      TotalsSnoc(details, d.value);
    }
  }

  /**
   * The month's detail: None when the month does not exist; otherwise the
   * details of the categories with expenses in priority order, and grand
   * totals accumulated category by category.
   */
  method GetCashFlowMonthDetail(month: Option<Month>, categories: seq<Category>, subcategories: seq<Subcategory>,
                                expenses: seq<Transaction>)
    returns (r: Option<MonthDetailReport>)
    ensures month.None? <==> r.None?
    ensures r.Some? ==> r.value.month == month.value
    ensures r.Some? ==> r.value.categories == Details(SortCategories(categories), subcategories, expenses)
    ensures r.Some? ==> r.value.grandBankCash == BankCashTotals(r.value.categories)
    ensures r.Some? ==> r.value.grandCreditCard == CreditCardTotals(r.value.categories)
    ensures r.Some? ==> r.value.grandTotal == r.value.grandBankCash + r.value.grandCreditCard
  {
    if month.None? {
      return None;
    }
    var details, grandBankCash, grandCreditCard := CollectDetails(SortCategories(categories), subcategories, expenses);
    r := Some(MonthDetailReport(month.value, details, grandBankCash, grandCreditCard, grandBankCash + grandCreditCard));
  }

  /** The loop over the sorted categories: each detail that exists is appended and added to the grand totals. */
  method CollectDetails(sorted: seq<Category>, subcategories: seq<Subcategory>, expenses: seq<Transaction>)
    returns (details: seq<CategoryDetail>, grandBankCash: int, grandCreditCard: int)
    ensures details == Details(sorted, subcategories, expenses)
    ensures grandBankCash == BankCashTotals(details) && grandCreditCard == CreditCardTotals(details)
  {
    details, grandBankCash, grandCreditCard := [], 0, 0;
    for i := 0 to |sorted|
      invariant details == Details(sorted[..i], subcategories, expenses)
      invariant grandBankCash == BankCashTotals(details)
      invariant grandCreditCard == CreditCardTotals(details)
    {
      var d := BuildCategoryDetail(sorted[i], subcategories, expenses);
      CollectStep(sorted, i, subcategories, expenses, details, d);
      if d.Some? {
        details := details + [d.value];
        grandBankCash := grandBankCash + d.value.bankCashTotal;
        grandCreditCard := grandCreditCard + d.value.creditCardTotal;
      }
    }
    assert sorted[..|sorted|] == sorted;
  }

  // ----- The subcategory and unclassified buckets partition a category -----

  lemma FilterCons<T>(t: T, rest: seq<T>, p: T -> bool)
    ensures Filter([t] + rest, p) == (if p(t) then [t] else []) + Filter(rest, p)
  {
    assert ([t] + rest)[1..] == rest;
  }

  lemma SpentCons(t: Transaction, rest: seq<Transaction>, pm: PaymentMethod)
    ensures Spent([t] + rest, pm) == (if t.paymentMethod == pm then Abs(Net(t)) else 0) + Spent(rest, pm)
  {
    FilterCons(t, rest, PaidBy(pm));
    if t.paymentMethod == pm {
      assert ([t] + Filter(rest, PaidBy(pm)))[1..] == Filter(rest, PaidBy(pm));
    } else {
      assert [] + Filter(rest, PaidBy(pm)) == Filter(rest, PaidBy(pm));
    }
  }

  /** What `t` adds to `Spent` of any list it heads, when it passes `p`. */
  function Share(t: Transaction, pm: PaymentMethod): int {
    if t.paymentMethod == pm then Abs(Net(t)) else 0
  }

  lemma SpentFilterCons(t: Transaction, rest: seq<Transaction>, p: Transaction -> bool, pm: PaymentMethod)
    ensures Spent(Filter([t] + rest, p), pm) == (if p(t) then Share(t, pm) else 0) + Spent(Filter(rest, p), pm)
  {
    FilterCons(t, rest, p);
    if p(t) {
      SpentCons(t, Filter(rest, p), pm);
    } else {
      assert [] + Filter(rest, p) == Filter(rest, p);
    }
  }

  /** The sum over the subcategories of what their transactions paid with `pm`. */
  function SubsSpent(subs: seq<Subcategory>, txs: seq<Transaction>, pm: PaymentMethod): int {
    if subs == [] then 0 else Spent(Filter(txs, OfSubcategory(subs[0].id)), pm) + SubsSpent(subs[1..], txs, pm)
  }

  predicate DistinctIds(subs: seq<Subcategory>) {
    forall i, j :: 0 <= i < j < |subs| ==> subs[i].id != subs[j].id
  }

  lemma {:induction false} SubsSpentEmpty(subs: seq<Subcategory>, pm: PaymentMethod)
    ensures SubsSpent(subs, [], pm) == 0
  {
    if subs != [] {
      SubsSpentEmpty(subs[1..], pm);
    }
  }

  lemma DistinctIdsTail(subs: seq<Subcategory>)
    requires DistinctIds(subs) && subs != []
    ensures DistinctIds(subs[1..])
    ensures forall k :: 0 <= k < |subs[1..]| ==> subs[1..][k].id != subs[0].id
  {
    var tail := subs[1..];
    forall i, j | 0 <= i < j < |tail| ensures tail[i].id != tail[j].id {
      assert tail[i] == subs[i + 1] && tail[j] == subs[j + 1];
    }
    forall k | 0 <= k < |tail| ensures tail[k].id != subs[0].id {
      assert tail[k] == subs[k + 1];
    }
  }

  lemma MatchedCons(subs: seq<Subcategory>, t: Transaction)
    requires subs != []
    ensures Matched(subs, t) <==> t.subcategoryId == Some(subs[0].id) || Matched(subs[1..], t)
  {
    var tail := subs[1..];
    if Matched(subs, t) {
      var k :| 0 <= k < |subs| && subs[k].id == t.subcategoryId.value;
      if k > 0 {
        assert tail[k - 1] == subs[k];
      }
    }
    if Matched(tail, t) {
      var k :| 0 <= k < |tail| && tail[k].id == t.subcategoryId.value;
      assert subs[k + 1] == tail[k];
    }
    if t.subcategoryId == Some(subs[0].id) {
      assert subs[0].id == t.subcategoryId.value;
    }
  }

  lemma {:induction false} SubsSpentCons(subs: seq<Subcategory>, t: Transaction, rest: seq<Transaction>, pm: PaymentMethod)
    requires DistinctIds(subs)
    ensures SubsSpent(subs, [t] + rest, pm) == (if Matched(subs, t) then Share(t, pm) else 0) + SubsSpent(subs, rest, pm)
  {
    if subs != [] {
      var tail := subs[1..];
      DistinctIdsTail(subs);
      MatchedCons(subs, t);
      SubsSpentCons(tail, t, rest, pm);
      SpentFilterCons(t, rest, OfSubcategory(subs[0].id), pm);
      if t.subcategoryId == Some(subs[0].id) {
        assert !Matched(tail, t);
      }
    }
  }

  /**
   * With distinct, non-empty subcategory ids, every transaction of a category
   * falls in exactly one bucket: its subcategory's, or the unclassified one.
   * So the buckets' spending adds up to the category's, per payment method.
   */
  lemma {:induction false} Partition(subs: seq<Subcategory>, txs: seq<Transaction>, pm: PaymentMethod)
    requires DistinctIds(subs)
    requires forall i :: 0 <= i < |subs| ==> subs[i].id != ""
    ensures SubsSpent(subs, txs, pm) + Spent(Filter(txs, Unclassified(subs)), pm) == Spent(txs, pm)
  {
    if txs == [] {
      SubsSpentEmpty(subs, pm);
    } else {
      var t, rest := txs[0], txs[1..];
      assert txs == [t] + rest;
      SubsSpentCons(subs, t, rest, pm);
      SpentFilterCons(t, rest, Unclassified(subs), pm);
      SpentCons(t, rest, pm);
      Partition(subs, rest, pm);
      if Matched(subs, t) {
        var k :| 0 <= k < |subs| && subs[k].id == t.subcategoryId.value;
        assert Truthy(t.subcategoryId);
      }
    }
  }

  lemma {:induction false} RowsSpent(catTxs: seq<Transaction>, subs: seq<Subcategory>)
    ensures BankCashSum(SubcategoryRows(catTxs, subs)) == SubsSpent(subs, catTxs, BankCash)
    ensures CreditCardSum(SubcategoryRows(catTxs, subs)) == SubsSpent(subs, catTxs, CreditCard)
  {
    if subs != [] {
      var rows := SubcategoryRows(catTxs, subs);
      assert rows[1..] == SubcategoryRows(catTxs, subs[1..]);
      RowsSpent(catTxs, subs[1..]);
    }
  }

  lemma {:induction false} SumsAppend(rows: seq<SubRow>, u: SubRow)
    ensures BankCashSum(rows + [u]) == BankCashSum(rows) + u.bankCash
    ensures CreditCardSum(rows + [u]) == CreditCardSum(rows) + u.creditCard
  {
    if rows == [] {
      assert rows + [u] == [u];
    } else {
      assert (rows + [u])[1..] == rows[1..] + [u];
      SumsAppend(rows[1..], u);
    }
  }

  lemma DistinctFilter(subcategories: seq<Subcategory>, p: Subcategory -> bool)
    requires DistinctIds(subcategories)
    ensures DistinctIds(Filter(subcategories, p))
  {
    if subcategories != [] {
      DistinctFilter(subcategories[1..], p);
      var rest := Filter(subcategories[1..], p);
      if p(subcategories[0]) {
        forall j | 0 <= j < |rest| ensures rest[j].id != subcategories[0].id {
          var k :| 0 <= k < |subcategories[1..]| && subcategories[1..][k] == rest[j];
          assert subcategories[k + 1] == rest[j];
        }
      }
    }
  }

  /** The rows of a category add up, per payment method, to what all its transactions paid. */
  lemma DetailRowsSpent(catTxs: seq<Transaction>, catSubs: seq<Subcategory>)
    requires DistinctIds(catSubs)
    requires forall i :: 0 <= i < |catSubs| ==> catSubs[i].id != ""
    ensures BankCashSum(DetailRows(catTxs, catSubs)) == Spent(catTxs, BankCash)
    ensures CreditCardSum(DetailRows(catTxs, catSubs)) == Spent(catTxs, CreditCard)
  {
    var rows := DetailRows(catTxs, catSubs);
    var unclassifiedTxs := Filter(catTxs, Unclassified(catSubs));
    var named := SubcategoryRows(catTxs, catSubs);
    var u := SubRowOf(unclassifiedTxs, None, UnclassifiedName);
    assert BankCashSum(rows) == BankCashSum(named) + u.bankCash &&
           CreditCardSum(rows) == CreditCardSum(named) + u.creditCard by {
      if |unclassifiedTxs| > 0 && (u.bankCash != 0 || u.creditCard != 0) {
        assert rows == named + [u];
        SumsAppend(named, u);
      } else if |unclassifiedTxs| == 0 {
        assert unclassifiedTxs == [];
        assert Filter(unclassifiedTxs, PaidBy(BankCash)) == [] && Filter(unclassifiedTxs, PaidBy(CreditCard)) == [];
      }
    }
    RowsSpent(catTxs, catSubs);
    assert BankCashSum(rows) == Spent(catTxs, BankCash) by {
      Partition(catSubs, catTxs, BankCash);
    }
    assert CreditCardSum(rows) == Spent(catTxs, CreditCard) by {
      Partition(catSubs, catTxs, CreditCard);
    }
  }

  /**
   * With distinct, non-empty subcategory ids, a category's bank/cash and
   * credit-card totals are what all its transactions paid by each method,
   * whether or not the unclassified row is shown.
   */
  lemma CategoryTotals(cat: Category, subcategories: seq<Subcategory>, expenses: seq<Transaction>)
    requires DistinctIds(subcategories)
    requires forall i :: 0 <= i < |subcategories| ==> subcategories[i].id != ""
    ensures var d := CategoryDetailOf(cat, subcategories, expenses);
            d.Some? ==>
              d.value.bankCashTotal == Spent(Filter(expenses, OfCategory(cat.id)), BankCash)
              && d.value.creditCardTotal == Spent(Filter(expenses, OfCategory(cat.id)), CreditCard)
  {
    var catSubs := Filter(subcategories, SubcategoryOf(cat.id));
    DistinctFilter(subcategories, SubcategoryOf(cat.id));
    assert forall i :: 0 <= i < |catSubs| ==> catSubs[i].id != "";
    DetailRowsSpent(Filter(expenses, OfCategory(cat.id)), catSubs);
  }

  /** Bank/cash and credit card together are every expense, when no other method is used. */
  lemma {:induction false} SpentSplit(txs: seq<Transaction>)
    requires forall t :: t in txs ==> t.paymentMethod == BankCash || t.paymentMethod == CreditCard
    ensures Spent(txs, BankCash) + Spent(txs, CreditCard) == AbsNetSum(txs)
  {
    if txs != [] {
      assert txs == [txs[0]] + txs[1..];
      SpentCons(txs[0], txs[1..], BankCash);
      SpentCons(txs[0], txs[1..], CreditCard);
      assert forall t :: t in txs[1..] ==> t in txs;
      SpentSplit(txs[1..]);
    }
  }

  /**
   * When every expense is paid by bank/cash or credit card (and subcategory
   * ids are distinct and non-empty), a category's total is the sum of the
   * absolute nets of its transactions.
   */
  lemma CategoryTotalIsAbsNet(cat: Category, subcategories: seq<Subcategory>, expenses: seq<Transaction>)
    requires DistinctIds(subcategories)
    requires forall i :: 0 <= i < |subcategories| ==> subcategories[i].id != ""
    requires forall t :: t in expenses ==> t.paymentMethod == BankCash || t.paymentMethod == CreditCard
    ensures var d := CategoryDetailOf(cat, subcategories, expenses);
            d.Some? ==> d.value.total == AbsNetSum(Filter(expenses, OfCategory(cat.id)))
  {
    var d := CategoryDetailOf(cat, subcategories, expenses);
    if d.Some? {
      CategoryTotals(cat, subcategories, expenses);
      var catTxs := Filter(expenses, OfCategory(cat.id));
      forall t | t in catTxs ensures t.paymentMethod == BankCash || t.paymentMethod == CreditCard {
        var i :| 0 <= i < |catTxs| && catTxs[i] == t;
        assert t in expenses;
      }
      SpentSplit(catTxs);
    }
  }

  /** Every amount of a detail is non-negative. */
  lemma {:induction false} DetailNonNegative(cat: Category, subcategories: seq<Subcategory>, expenses: seq<Transaction>)
    ensures var d := CategoryDetailOf(cat, subcategories, expenses);
            d.Some? ==>
              d.value.bankCashTotal >= 0 && d.value.creditCardTotal >= 0
              && forall k :: 0 <= k < |d.value.subcategories| ==>
                   d.value.subcategories[k].bankCash >= 0 && d.value.subcategories[k].creditCard >= 0
                   && d.value.subcategories[k].total == d.value.subcategories[k].bankCash + d.value.subcategories[k].creditCard
  {
    var catTxs := Filter(expenses, OfCategory(cat.id));
    if |catTxs| > 0 {
      var rows := DetailRows(catTxs, Filter(subcategories, SubcategoryOf(cat.id)));
      RowsNonNegative(catTxs, Filter(subcategories, SubcategoryOf(cat.id)));
      SumsNonNegative(rows);
      assert CategoryDetailOf(cat, subcategories, expenses) == Some(DetailOf(cat, rows));
    }
  }

  lemma RowsNonNegative(catTxs: seq<Transaction>, catSubs: seq<Subcategory>)
    ensures var rows := DetailRows(catTxs, catSubs);
            forall k :: 0 <= k < |rows| ==>
              rows[k].bankCash >= 0 && rows[k].creditCard >= 0 && rows[k].total == rows[k].bankCash + rows[k].creditCard
  {
    var named := SubcategoryRows(catTxs, catSubs);
    var u := SubRowOf(Filter(catTxs, Unclassified(catSubs)), None, UnclassifiedName);
    var rows := DetailRows(catTxs, catSubs);
    assert rows == named || rows == named + [u];
    forall k | 0 <= k < |rows|
      ensures rows[k].bankCash >= 0 && rows[k].creditCard >= 0 && rows[k].total == rows[k].bankCash + rows[k].creditCard
    {
      if k < |named| {
        assert rows[k] == named[k];
      } else {
        assert rows[k] == u;
      }
    }
  }

  lemma {:induction false} SumsNonNegative(rows: seq<SubRow>)
    requires forall k :: 0 <= k < |rows| ==> rows[k].bankCash >= 0 && rows[k].creditCard >= 0
    ensures BankCashSum(rows) >= 0 && CreditCardSum(rows) >= 0
  {
    if rows != [] {
      SumsNonNegative(rows[1..]);
    }
  }
}
