/**
 * The legacy cash-flow summary: the signed total of the expense
 * transactions of each (category, month) pair, accumulated in a map keyed
 * by the text `category|month` (a missing category keyed by a reserved
 * id), then read back into a list of totals; an "Uncategorized" category
 * is appended when some total has no category. No month ids, no summary.
 */
module LegacySummary {
  import opened Ledger
  import opened Text
  import opened OrderedMaps

  const UncategorizedId: string := "__uncategorized__"
  const Separator: char := '|'

  /** The category the summary appends for totals without one. */
  const Uncategorized: Category := Category(UncategorizedId, "Uncategorized")

  datatype SummaryMonth = SummaryMonth(id: string, monthLabel: string)

  datatype SummaryTotal = SummaryTotal(categoryId: Option<string>, monthId: string, total: int)

  datatype Summary = Summary(categories: seq<Category>, months: seq<SummaryMonth>, totals: seq<SummaryTotal>)

  /** `tx.category_id ?? UNCATEGORIZED_ID`. */
  function CategoryKey(t: Transaction): string {
    match t.categoryId
    case None => UncategorizedId
    case Some(c) => c
  }

  /** `${categoryKey}|${monthId}`. */
  function Key(categoryKey: string, monthId: string): (k: string)
    ensures Separator in k
  {
    var k := categoryKey + [Separator] + monthId;
    assert k[|categoryKey|] == Separator;
    k
  }

  function KeyOf(t: Transaction): string {
    Key(CategoryKey(t), t.monthId)
  }

  /**
   * `const [category, month] = key.split("|")`: the text before the first
   * separator, and the text between it and the next separator (or the end).
   */
  function SplitKey(key: string): (string, string) {
    var i := FirstIndex(key, Separator);
    if i < 0 then
      // Every key holds the separator (see `Key`); JavaScript would give `undefined` here.
      (key, "")
    else
      var rest := key[i + 1..];
      var j := FirstIndex(rest, Separator);
      (key[..i], if j < 0 then rest else rest[..j])
  }

  /** Splitting a key gives back both of its parts when neither contains the separator. */
  lemma SplitKeyJoin(categoryKey: string, monthId: string)
    requires Separator !in categoryKey && Separator !in monthId
    ensures SplitKey(Key(categoryKey, monthId)) == (categoryKey, monthId)
  {
    var k := Key(categoryKey, monthId);
    FirstIndexAt(categoryKey, monthId);
    assert k[|categoryKey| + 1..] == monthId;
  }

  /** The category part alone survives whatever the month id holds. */
  lemma SplitKeyCategory(categoryKey: string, monthId: string)
    requires Separator !in categoryKey
    ensures SplitKey(Key(categoryKey, monthId)).0 == categoryKey
  {
    FirstIndexAt(categoryKey, monthId);
  }

  lemma FirstIndexAt(categoryKey: string, monthId: string)
    requires Separator !in categoryKey
    ensures FirstIndex(Key(categoryKey, monthId), Separator) == |categoryKey|
    ensures Key(categoryKey, monthId)[..|categoryKey|] == categoryKey
  {
    FirstIndexAfter(categoryKey, Separator, monthId);
    assert Key(categoryKey, monthId)[..|categoryKey|] == categoryKey;
  }

  /** One entry of the totals list, read back from its key. */
  function Entry(key: string, total: int): SummaryTotal {
    var (category, month) := SplitKey(key);
    SummaryTotal(if category == UncategorizedId then None else Some(category), month, total)
  }

  /** The totals map after every transaction has added its signed net under its key, in order. */
  function Accumulate(txs: seq<Transaction>): (m: OMap<int>)
    ensures Valid(m)
  {
    if txs == [] then Empty() else Add(Accumulate(txs[..|txs| - 1]), txs[|txs| - 1])
  }

  /** `totalsMap.set(key, (totalsMap.get(key) ?? 0) + total)` for one transaction. */
  function Add(m: OMap<int>, t: Transaction): (r: OMap<int>)
    requires Valid(m)
    ensures Valid(r)
  {
    AddTo(m, KeyOf(t), Net(t))
  }

  /** The totals list, in the map's key order (`forEach`). */
  function TotalsOf(m: OMap<int>): (r: seq<SummaryTotal>)
    requires Valid(m)
    ensures |r| == |m.keys|
    ensures forall i :: 0 <= i < |m.keys| ==> r[i] == Entry(m.keys[i], m.values[m.keys[i]])
  {
    EntriesOf(m.keys, m.values)
  }

  function EntriesOf(keys: seq<string>, values: map<string, int>): (r: seq<SummaryTotal>)
    requires forall k :: k in keys ==> k in values
    ensures |r| == |keys| && forall i :: 0 <= i < |keys| ==> r[i] == Entry(keys[i], values[keys[i]])
  {
    if keys == [] then [] else [Entry(keys[0], values[keys[0]])] + EntriesOf(keys[1..], values)
  }

  predicate HasUncategorized(totals: seq<SummaryTotal>) {
    exists i :: 0 <= i < |totals| && totals[i].categoryId.None?
  }

  /** The transactions the summary reads: expenses booked in one of the months. */
  function Fetched(transactions: seq<Transaction>, monthIds: seq<string>): seq<Transaction> {
    Filter(transactions, (t: Transaction) => t.monthId in monthIds && t.txType == Expense)
  }

  /**
   * `getCashFlowSummary` after its queries: the categories by name, the
   * months whose ids were asked for, and the transactions.
   */
  method GetCashFlowSummary(monthIds: seq<string>, categories: seq<Category>, months: seq<SummaryMonth>,
                            transactions: seq<Transaction>)
    returns (r: Option<Summary>)
    ensures monthIds == [] <==> r.None?
    ensures r.Some? ==> r.value.months == months
    ensures r.Some? ==> r.value.totals == TotalsOf(Accumulate(Fetched(transactions, monthIds)))
    ensures r.Some? ==>
              r.value.categories == categories + (if HasUncategorized(r.value.totals) then [Uncategorized] else [])
  {
    if |monthIds| == 0 {
      return None;
    }
    var totalsMap := AccumulateTotals(Fetched(transactions, monthIds));
    var totals := ReadTotals(totalsMap);
    var categoriesWithNull := categories;
    if HasUncategorized(totals) {
      categoriesWithNull := categories + [Uncategorized];
    }
    r := Some(Summary(categoriesWithNull, months, totals));
  }

  /** The `for (const tx of transactions)` loop that fills `totalsMap`. */
  method AccumulateTotals(txs: seq<Transaction>) returns (totalsMap: OMap<int>)
    ensures totalsMap == Accumulate(txs)
  {
    totalsMap := Empty();
    for i := 0 to |txs|
      invariant Valid(totalsMap)
      invariant totalsMap == Accumulate(txs[..i])
    {
      var t := txs[i];
      var total := Net(t);
      var key := KeyOf(t);
      AccumulateSnoc(txs, i);
      totalsMap := AddTo(totalsMap, key, total);
    }
    assert txs[..|txs|] == txs;
  }

  lemma AccumulateSnoc(txs: seq<Transaction>, i: nat)
    requires i < |txs|
    ensures Accumulate(txs[..i + 1]) == Add(Accumulate(txs[..i]), txs[i])
  {
    assert txs[..i + 1][..i] == txs[..i];
  }

  /** The `totalsMap.forEach` that pushes one total per key, in key order. */
  method ReadTotals(totalsMap: OMap<int>) returns (totals: seq<SummaryTotal>)
    requires Valid(totalsMap)
    ensures totals == TotalsOf(totalsMap)
  {
    totals := [];
    for i := 0 to |totalsMap.keys|
      invariant |totals| == i
      invariant forall j :: 0 <= j < i ==> totals[j] == Entry(totalsMap.keys[j], totalsMap.values[totalsMap.keys[j]])
    {
      var key := totalsMap.keys[i];
      totals := totals + [Entry(key, totalsMap.values[key])];
    }
  }

  // ----- What the totals mean -----

  /** The transactions whose key is `k`. */
  function KeyIs(k: string): Transaction -> bool {
    (t: Transaction) => KeyOf(t) == k
  }

  lemma FilterSnoc(txs: seq<Transaction>, p: Transaction -> bool)
    requires txs != []
    ensures Filter(txs, p) == Filter(txs[..|txs| - 1], p) + (if p(txs[|txs| - 1]) then [txs[|txs| - 1]] else [])
  {
    var last := txs[|txs| - 1];
    assert txs == txs[..|txs| - 1] + [last];
    FilterAppend(txs[..|txs| - 1], [last], p);
    assert [last][1..] == [];
  }

  /** The last transaction adds its net to its own key and nothing to any other. */
  lemma AccumulateLast(txs: seq<Transaction>, k: string)
    requires txs != []
    ensures GetOr(Accumulate(txs), k, 0) ==
              GetOr(Accumulate(txs[..|txs| - 1]), k, 0) + (if KeyOf(txs[|txs| - 1]) == k then Net(txs[|txs| - 1]) else 0)
  {
    var m, last := Accumulate(txs[..|txs| - 1]), txs[|txs| - 1];
    assert Accumulate(txs) == Add(m, last);
  }

  /** The net of the transactions `p` keeps grows by the last one's net exactly when `p` keeps it. */
  lemma NetSumFilterLast(txs: seq<Transaction>, p: Transaction -> bool)
    requires txs != []
    ensures NetSum(Filter(txs, p)) ==
              NetSum(Filter(txs[..|txs| - 1], p)) + (if p(txs[|txs| - 1]) then Net(txs[|txs| - 1]) else 0)
  {
    var last := txs[|txs| - 1];
    var before := Filter(txs[..|txs| - 1], p);
    FilterSnoc(txs, p);
    if p(last) {
      var f := Filter(txs, p);
      assert f[..|f| - 1] == before && f[|f| - 1] == last;
      NetSumSnoc(f);
    } else {
      assert Filter(txs, p) == before;
    }
  }

  /** Each key holds the signed (not absolute) sum of the nets of the transactions with that key. */
  lemma {:induction false} AccumulateAt(txs: seq<Transaction>, k: string)
    ensures GetOr(Accumulate(txs), k, 0) == NetSum(Filter(txs, KeyIs(k)))
  {
    if txs != [] {
      AccumulateAt(txs[..|txs| - 1], k);
      AccumulateLast(txs, k);
      NetSumFilterLast(txs, KeyIs(k));
    }
  }

  /** A key is present exactly when some transaction has it. */
  lemma {:induction false} AccumulateKeys(txs: seq<Transaction>, k: string)
    ensures k in Accumulate(txs).keys <==> exists i :: 0 <= i < |txs| && KeyOf(txs[i]) == k
  {
    if txs != [] {
      var init := txs[..|txs| - 1];
      AccumulateKeys(init, k);
      if exists i :: 0 <= i < |init| && KeyOf(init[i]) == k {
        var i :| 0 <= i < |init| && KeyOf(init[i]) == k;
        assert txs[i] == init[i];
      }
      if exists i :: 0 <= i < |txs| && KeyOf(txs[i]) == k {
        var i :| 0 <= i < |txs| && KeyOf(txs[i]) == k;
        if i < |init| {
          assert init[i] == txs[i];
        }
      }
    }
  }

  function TotalsSum(totals: seq<SummaryTotal>): int {
    if totals == [] then 0 else totals[0].total + TotalsSum(totals[1..])
  }

  lemma {:induction false} TotalsSumValues(keys: seq<string>, values: map<string, int>)
    requires forall k :: k in keys ==> k in values
    ensures TotalsSum(EntriesOf(keys, values)) == SumSeq(ValuesOf(keys, values))
  {
    if keys != [] {
      assert forall k :: k in keys[1..] ==> k in keys;
      TotalsSumValues(keys[1..], values);
      var entries := EntriesOf(keys, values);
      assert entries[1..] == EntriesOf(keys[1..], values);
      var vals := ValuesOf(keys, values);
      assert vals[1..] == ValuesOf(keys[1..], values);
    }
  }

  /** Every transaction's net lands in exactly one total: the totals add up to the net of all of them. */
  lemma {:induction false} TotalsAddUp(txs: seq<Transaction>)
    ensures TotalsSum(TotalsOf(Accumulate(txs))) == NetSum(txs)
  {
    var m := Accumulate(txs);
    TotalsSumValues(m.keys, m.values);
    AccumulateSum(txs);
    var totals := TotalsOf(m);
    assert totals == EntriesOf(m.keys, m.values);
    var sum := Sum(m);
    assert sum == SumSeq(ValuesOf(m.keys, m.values));
  }

  lemma {:induction false} AccumulateSum(txs: seq<Transaction>)
    ensures Sum(Accumulate(txs)) == NetSum(txs)
  {
    if txs != [] {
      var init := txs[..|txs| - 1];
      var last := txs[|txs| - 1];
      var before := Accumulate(init);
      AccumulateSum(init);
      SumAddTo(before, KeyOf(last), Net(last));
      NetSumSnoc(txs);
    }
  }

  /** Category ids as the database holds them: never the reserved id, never containing the separator. */
  predicate PlainCategory(t: Transaction) {
    t.categoryId.Some? ==> t.categoryId.value != UncategorizedId && Separator !in t.categoryId.value
  }

  lemma CategoryKeyPlain(t: Transaction)
    requires PlainCategory(t)
    ensures Separator !in CategoryKey(t)
    ensures CategoryKey(t) == UncategorizedId <==> t.categoryId.None?
  {
    assert UncategorizedId[..] == "__uncategorized__";
  }

  /** The entry read back from a transaction's key carries that transaction's category. */
  lemma EntryCategory(t: Transaction, v: int)
    requires PlainCategory(t)
    ensures Entry(KeyOf(t), v).categoryId == t.categoryId
  {
    CategoryKeyPlain(t);
    SplitKeyCategory(CategoryKey(t), t.monthId);
  }

  /** ... and, when the month id is free of the separator, its month. */
  lemma EntryMonth(t: Transaction, v: int)
    requires PlainCategory(t) && Separator !in t.monthId
    ensures Entry(KeyOf(t), v).monthId == t.monthId
  {
    CategoryKeyPlain(t);
    SplitKeyJoin(CategoryKey(t), t.monthId);
  }

  /**
   * With plain category ids, the "Uncategorized" category is appended
   * exactly when some transaction read has no category.
   */
  lemma UncategorizedIffMissing(txs: seq<Transaction>)
    requires forall i :: 0 <= i < |txs| ==> PlainCategory(txs[i])
    ensures HasUncategorized(TotalsOf(Accumulate(txs))) <==> exists i :: 0 <= i < |txs| && txs[i].categoryId.None?
  {
    var m := Accumulate(txs);
    var totals := TotalsOf(m);
    if HasUncategorized(totals) {
      var j :| 0 <= j < |totals| && totals[j].categoryId.None?;
      var k := m.keys[j];
      AccumulateKeys(txs, k);
      var i :| 0 <= i < |txs| && KeyOf(txs[i]) == k;
      EntryCategory(txs[i], m.values[k]);
      assert totals[j] == Entry(k, m.values[k]);
    }
    if exists i :: 0 <= i < |txs| && txs[i].categoryId.None? {
      var i :| 0 <= i < |txs| && txs[i].categoryId.None?;
      var k := KeyOf(txs[i]);
      AccumulateKeys(txs, k);
      var j :| 0 <= j < |m.keys| && m.keys[j] == k;
      EntryCategory(txs[i], m.values[k]);
      assert totals[j] == Entry(k, m.values[k]);
    }
  }

  /**
   * With plain category ids and month ids free of the separator, the total
   * of a (category, month) pair reads back as that pair and holds the
   * signed net of exactly the transactions of that category and month.
   */
  lemma EntryMeaning(txs: seq<Transaction>, j: nat)
    requires forall i :: 0 <= i < |txs| ==> PlainCategory(txs[i]) && Separator !in txs[i].monthId
    requires j < |TotalsOf(Accumulate(txs))|
    ensures var e := TotalsOf(Accumulate(txs))[j];
            e.total == NetSum(Filter(txs, SamePair(e.categoryId, e.monthId)))
  {
    var m := Accumulate(txs);
    var k := m.keys[j];
    var e := TotalsOf(m)[j];
    assert e == Entry(k, m.values[k]);
    AccumulateKeys(txs, k);
    var i :| 0 <= i < |txs| && KeyOf(txs[i]) == k;
    var t := txs[i];
    EntryCategory(t, m.values[k]);
    EntryMonth(t, m.values[k]);
    AccumulateAt(txs, k);
    SameKeyFilter(txs, t);
  }

  /** The transactions of one category (None: none) and one month. */
  function SamePair(categoryId: Option<string>, monthId: string): Transaction -> bool {
    (t: Transaction) => t.categoryId == categoryId && t.monthId == monthId
  }

  /** With plain ids, two transactions share a key exactly when they share category and month. */
  lemma SameKey(s: Transaction, t: Transaction)
    requires PlainCategory(s) && Separator !in s.monthId
    requires PlainCategory(t) && Separator !in t.monthId
    ensures KeyOf(s) == KeyOf(t) <==> s.categoryId == t.categoryId && s.monthId == t.monthId
  {
    CategoryKeyPlain(s);
    CategoryKeyPlain(t);
    SplitKeyJoin(CategoryKey(s), s.monthId);
    SplitKeyJoin(CategoryKey(t), t.monthId);
  }

  lemma {:induction false} SameKeyFilter(txs: seq<Transaction>, t: Transaction)
    requires forall i :: 0 <= i < |txs| ==> PlainCategory(txs[i]) && Separator !in txs[i].monthId
    requires PlainCategory(t) && Separator !in t.monthId
    ensures Filter(txs, KeyIs(KeyOf(t))) == Filter(txs, SamePair(t.categoryId, t.monthId))
  {
    if txs != [] {
      SameKey(txs[0], t);
      SameKeyFilter(txs[1..], t);
    }
  }
}
