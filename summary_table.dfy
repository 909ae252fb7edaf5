/**
 * The table that renders a legacy cash-flow summary: a running total per
 * month and per category (each listed one starting at 0), the cell of a
 * (category, month) pair looked up in the totals list, the categories in
 * ascending order of their total, and the grand total.
 */
module SummaryTable {
  import opened Ledger
  import opened OrderedMaps
  import opened StableSort
  import opened LegacySummary

  /** `t.month_id`, the key of the per-month map. */
  function MonthKey(t: SummaryTotal): string {
    t.monthId
  }

  /** `category_id ?? UNCATEGORIZED_ID`. */
  function OrUncategorized(categoryId: Option<string>): string {
    match categoryId
    case None => UncategorizedId
    case Some(c) => c
  }

  /** The key of the per-category map. */
  function CategoryKeyOf(t: SummaryTotal): string {
    OrUncategorized(t.categoryId)
  }

  /** Which of the two maps a total is added to. */
  datatype Grouping = ByMonth | ByCategory

  function GroupKey(g: Grouping, t: SummaryTotal): string {
    match g
    case ByMonth => MonthKey(t)
    case ByCategory => CategoryKeyOf(t)
  }

  function MonthIds(months: seq<SummaryMonth>): (r: seq<string>)
    ensures |r| == |months| && forall i :: 0 <= i < |months| ==> r[i] == months[i].id
  {
    if months == [] then [] else [months[0].id] + MonthIds(months[1..])
  }

  /**
   * The ids of the categories; the source's `cat.id === UNCATEGORIZED_ID ?
   * UNCATEGORIZED_ID : cat.id` is the id either way.
   */
  function CategoryIds(categories: seq<Category>): (r: seq<string>)
    ensures |r| == |categories| && forall i :: 0 <= i < |categories| ==> r[i] == categories[i].id
  {
    if categories == [] then [] else [categories[0].id] + CategoryIds(categories[1..])
  }

  /** A map that has set each id to 0, in order. */
  function Zeroed(ids: seq<string>): (m: OMap<int>)
    ensures Valid(m)
  {
    if ids == [] then Empty() else Put(Zeroed(ids[..|ids| - 1]), ids[|ids| - 1], 0)
  }

  /** One total added under its key, a missing key read as 0. */
  function Step(m: OMap<int>, t: SummaryTotal, key: Grouping): (r: OMap<int>)
    requires Valid(m)
    ensures Valid(r)
  {
    AddTo(m, GroupKey(key, t), t.total)
  }

  /** Every total added in turn under its key. */
  function Tally(m: OMap<int>, totals: seq<SummaryTotal>, key: Grouping): (r: OMap<int>)
    requires Valid(m)
    ensures Valid(r)
  {
    if totals == [] then m else Step(Tally(m, totals[..|totals| - 1], key), totals[|totals| - 1], key)
  }

  /** `totalByMonth` once its loops are done. */
  function TotalByMonth(months: seq<SummaryMonth>, totals: seq<SummaryTotal>): OMap<int> {
    Tally(Zeroed(MonthIds(months)), totals, ByMonth)
  }

  /** `totalByCategory` once its loops are done. */
  function TotalByCategory(categories: seq<Category>, totals: seq<SummaryTotal>): OMap<int> {
    Tally(Zeroed(CategoryIds(categories)), totals, ByCategory)
  }

  /** The three `for` loops that fill `totalByMonth` and `totalByCategory`. */
  method BuildTotals(months: seq<SummaryMonth>, categories: seq<Category>, totals: seq<SummaryTotal>)
    returns (totalByMonth: OMap<int>, totalByCategory: OMap<int>)
    ensures totalByMonth == TotalByMonth(months, totals)
    ensures totalByCategory == TotalByCategory(categories, totals)
  {
    var byMonth0 := SetZeros(MonthIds(months));
    var byCategory0 := SetZeros(CategoryIds(categories));
    totalByMonth, totalByCategory := AddTotals(byMonth0, byCategory0, totals);
  }

  /** `for (const m of months) map.set(m.id, 0)`, and the same for the categories. */
  method SetZeros(ids: seq<string>) returns (m: OMap<int>)
    ensures m == Zeroed(ids)
  {
    m := Empty();
    for i := 0 to |ids|
      invariant m == Zeroed(ids[..i])
    {
      assert ids[..i + 1][..i] == ids[..i];
      m := Put(m, ids[i], 0);
    }
    assert ids[..|ids|] == ids;
  }

  /** `for (const t of totals)`: each total added to its month and to its category. */
  method AddTotals(byMonth0: OMap<int>, byCategory0: OMap<int>, totals: seq<SummaryTotal>)
    returns (totalByMonth: OMap<int>, totalByCategory: OMap<int>)
    requires Valid(byMonth0) && Valid(byCategory0)
    ensures totalByMonth == Tally(byMonth0, totals, ByMonth)
    ensures totalByCategory == Tally(byCategory0, totals, ByCategory)
  {
    totalByMonth, totalByCategory := byMonth0, byCategory0;
    for i := 0 to |totals|
      invariant Valid(totalByMonth) && Valid(totalByCategory)
      invariant totalByMonth == Tally(byMonth0, totals[..i], ByMonth)
      invariant totalByCategory == Tally(byCategory0, totals[..i], ByCategory)
    {
      var t := totals[i];
      TallySnoc(byMonth0, totals, ByMonth, i);
      TallySnoc(byCategory0, totals, ByCategory, i);
      totalByMonth := AddTo(totalByMonth, t.monthId, t.total);
      totalByCategory := AddTo(totalByCategory, OrUncategorized(t.categoryId), t.total);
    }
    assert totals[..|totals|] == totals;
  }

  lemma TallySnoc(m: OMap<int>, totals: seq<SummaryTotal>, key: Grouping, i: nat)
    requires Valid(m) && i < |totals|
    ensures Tally(m, totals[..i + 1], key) == Step(Tally(m, totals[..i], key), totals[i], key)
  {
    assert totals[..i + 1][..i] == totals[..i];
  }

  // ----- What the maps hold -----

  /** Every listed id is present and starts at 0; no other id is present. */
  lemma {:induction false} ZeroedAt(ids: seq<string>, k: string)
    ensures k in Zeroed(ids).values <==> k in ids
    ensures GetOr(Zeroed(ids), k, 0) == 0
  {
    if ids != [] {
      var init, last := ids[..|ids| - 1], ids[|ids| - 1];
      ZeroedAt(init, k);
      assert Zeroed(ids).values == Zeroed(init).values[last := 0];
      InInitOrLast(ids, k);
    }
  }

  lemma InInitOrLast(ids: seq<string>, k: string)
    requires ids != []
    ensures k in ids <==> k in ids[..|ids| - 1] || k == ids[|ids| - 1]
  {
    if k in ids && k != ids[|ids| - 1] {
      var i :| 0 <= i < |ids| && ids[i] == k;
      assert ids[..|ids| - 1][i] == k;
    }
  }

  /** A map of zeros adds up to 0. */
  lemma {:induction false} ZeroedSum(ids: seq<string>)
    ensures Sum(Zeroed(ids)) == 0
  {
    if ids != [] {
      var init := ids[..|ids| - 1];
      var last := ids[|ids| - 1];
      ZeroedSum(init);
      ZeroedAt(init, last);
      SumPut(Zeroed(init), last, 0);
    }
  }

  function TotalsOfKey(totals: seq<SummaryTotal>, key: Grouping, k: string): seq<SummaryTotal> {
    Filter(totals, (t: SummaryTotal) => GroupKey(key, t) == k)
  }

  lemma {:induction false} TotalsSumAppend(a: seq<SummaryTotal>, b: seq<SummaryTotal>)
    ensures TotalsSum(a + b) == TotalsSum(a) + TotalsSum(b)
  {
    if a == [] {
      assert a + b == b;
    } else {
      assert (a + b)[1..] == a[1..] + b;
      TotalsSumAppend(a[1..], b);
    }
  }

  lemma FilterLast(totals: seq<SummaryTotal>, p: SummaryTotal -> bool)
    requires totals != []
    ensures Filter(totals, p)
         == Filter(totals[..|totals| - 1], p) + (if p(totals[|totals| - 1]) then [totals[|totals| - 1]] else [])
  {
    var last := totals[|totals| - 1];
    assert totals == totals[..|totals| - 1] + [last];
    FilterAppend(totals[..|totals| - 1], [last], p);
    assert [last][1..] == [];
  }

  /** A key holds its starting value plus the totals carrying that key. */
  lemma {:induction false} TallyAt(m: OMap<int>, totals: seq<SummaryTotal>, key: Grouping, k: string)
    requires Valid(m)
    ensures GetOr(Tally(m, totals, key), k, 0) == GetOr(m, k, 0) + TotalsSum(TotalsOfKey(totals, key, k))
    ensures k in m.values ==> k in Tally(m, totals, key).values
  {
    if totals != [] {
      var init := totals[..|totals| - 1];
      var last := totals[|totals| - 1];
      TallyAt(m, init, key, k);
      FilterLast(totals, (t: SummaryTotal) => GroupKey(key, t) == k);
      var before := TotalsOfKey(init, key, k);
      var extra := if GroupKey(key, last) == k then [last] else [];
      TotalsSumAppend(before, extra);
      assert TotalsSum([last]) == last.total by {
        assert [last][1..] == [];
      }
    }
  }

  /** Every total lands under exactly one key: the values add up to the start plus all totals. */
  lemma {:induction false} TallySum(m: OMap<int>, totals: seq<SummaryTotal>, key: Grouping)
    requires Valid(m)
    ensures Sum(Tally(m, totals, key)) == Sum(m) + TotalsSum(totals)
  {
    if totals != [] {
      var init, last := totals[..|totals| - 1], totals[|totals| - 1];
      var before := Tally(m, init, key);
      TallySum(m, init, key);
      SumStep(before, last, key);
      TotalsSumSnoc(totals);
    }
  }

  lemma TotalsSumSnoc(totals: seq<SummaryTotal>)
    requires totals != []
    ensures TotalsSum(totals) == TotalsSum(totals[..|totals| - 1]) + totals[|totals| - 1].total
  {
    var init, last := totals[..|totals| - 1], totals[|totals| - 1];
    assert totals == init + [last];
    TotalsSumAppend(init, [last]);
    assert TotalsSum([last]) == last.total by {
      assert [last][1..] == [];
    }
  }

  lemma SumStep(m: OMap<int>, t: SummaryTotal, key: Grouping)
    requires Valid(m)
    ensures Sum(Step(m, t, key)) == Sum(m) + t.total
  {
    SumAddTo(m, GroupKey(key, t), t.total);
  }

  /**
   * Each listed month is present; every month reads as the sum of the totals
   * of that month (0 when none).
   */
  lemma MonthTotalAt(months: seq<SummaryMonth>, totals: seq<SummaryTotal>, monthId: string)
    ensures GetOr(TotalByMonth(months, totals), monthId, 0) == TotalsSum(TotalsOfKey(totals, ByMonth, monthId))
    ensures monthId in MonthIds(months) ==> monthId in TotalByMonth(months, totals).values
  {
    var ids := MonthIds(months);
    ZeroedAt(ids, monthId);
    TallyAt(Zeroed(ids), totals, ByMonth, monthId);
  }

  /**
   * Each listed category is present; every category key reads as the sum of
   * the totals under that key, a missing category counting under the reserved id.
   */
  lemma CategoryTotalAt(categories: seq<Category>, totals: seq<SummaryTotal>, key: string)
    ensures GetOr(TotalByCategory(categories, totals), key, 0) == TotalsSum(TotalsOfKey(totals, ByCategory, key))
    ensures key in CategoryIds(categories) ==> key in TotalByCategory(categories, totals).values
  {
    var ids := CategoryIds(categories);
    ZeroedAt(ids, key);
    TallyAt(Zeroed(ids), totals, ByCategory, key);
  }

  /** `grandTotal`: the sum of the per-category values. */
  function GrandTotal(categories: seq<Category>, totals: seq<SummaryTotal>): int {
    Sum(TotalByCategory(categories, totals))
  }

  /** The grand total is the sum of every total, whichever categories are listed. */
  lemma GrandTotalIsSum(categories: seq<Category>, totals: seq<SummaryTotal>)
    ensures GrandTotal(categories, totals) == TotalsSum(totals)
  {
    var ids := CategoryIds(categories);
    ZeroedSum(ids);
    TallySum(Zeroed(ids), totals, ByCategory);
  }

  // ----- The cells -----

  /** The `find` predicate of `getTotal`. */
  predicate Matches(t: SummaryTotal, categoryId: Option<string>, monthId: string) {
    CategoryKeyOf(t) == OrUncategorized(categoryId) && t.monthId == monthId
  }

  /** `getTotal`: the total of the first matching entry, or 0. */
  function GetTotal(totals: seq<SummaryTotal>, categoryId: Option<string>, monthId: string): int {
    if totals == [] then 0
    else if Matches(totals[0], categoryId, monthId) then totals[0].total
    else GetTotal(totals[1..], categoryId, monthId)
  }

  /** When some entry matches, the cell is the total of the first one that does. */
  lemma {:induction false} GetTotalFirst(totals: seq<SummaryTotal>, categoryId: Option<string>, monthId: string, j: nat)
    requires j < |totals| && Matches(totals[j], categoryId, monthId)
    requires forall i :: 0 <= i < j ==> !Matches(totals[i], categoryId, monthId)
    ensures GetTotal(totals, categoryId, monthId) == totals[j].total
  {
    if j > 0 {
      assert !Matches(totals[0], categoryId, monthId);
      var tail := totals[1..];
      assert forall i :: 0 <= i < j - 1 ==> tail[i] == totals[i + 1];
      GetTotalFirst(tail, categoryId, monthId, j - 1);
    }
  }

  /** When no entry matches, the cell is 0. */
  lemma {:induction false} GetTotalNone(totals: seq<SummaryTotal>, categoryId: Option<string>, monthId: string)
    requires forall j :: 0 <= j < |totals| ==> !Matches(totals[j], categoryId, monthId)
    ensures GetTotal(totals, categoryId, monthId) == 0
  {
    if totals != [] {
      assert !Matches(totals[0], categoryId, monthId);
      var tail := totals[1..];
      assert forall j :: 0 <= j < |tail| ==> tail[j] == totals[j + 1];
      GetTotalNone(tail, categoryId, monthId);
    }
  }

  /**
   * On a summary built from plain ids, the cell of a (category, month) pair
   * is the signed net of exactly the transactions of that pair.
   */
  lemma GetTotalOfSummary(txs: seq<Transaction>, categoryId: Option<string>, monthId: string)
    requires forall i :: 0 <= i < |txs| ==> PlainCategory(txs[i]) && Separator !in txs[i].monthId
    requires categoryId != Some(UncategorizedId)
    ensures GetTotal(TotalsOf(Accumulate(txs)), categoryId, monthId)
         == NetSum(Filter(txs, SamePair(categoryId, monthId)))
  {
    var totals := TotalsOf(Accumulate(txs));
    if j :| 0 <= j < |totals| && Matches(totals[j], categoryId, monthId) {
      var f := FirstMatch(totals, categoryId, monthId, j);
      GetTotalFirst(totals, categoryId, monthId, f);
      EntryMeaning(txs, f);
      MatchesPair(totals[f], categoryId);
    } else {
      forall i | 0 <= i < |txs| ensures !SamePair(categoryId, monthId)(txs[i]) {
        HasEntry(txs, i);
      }
      NoneSelected(txs, SamePair(categoryId, monthId));
      GetTotalNone(totals, categoryId, monthId);
    }
  }

  /** Every transaction's pair has an entry in the summary. */
  lemma HasEntry(txs: seq<Transaction>, i: nat)
    requires forall i :: 0 <= i < |txs| ==> PlainCategory(txs[i]) && Separator !in txs[i].monthId
    requires i < |txs|
    ensures exists j :: 0 <= j < |TotalsOf(Accumulate(txs))| &&
                        Matches(TotalsOf(Accumulate(txs))[j], txs[i].categoryId, txs[i].monthId)
  {
    var t := txs[i];
    var m := Accumulate(txs);
    var totals := TotalsOf(m);
    var k := KeyOf(t);
    AccumulateKeys(txs, k);
    var j :| 0 <= j < |m.keys| && m.keys[j] == k;
    EntryCategory(t, m.values[k]);
    EntryMonth(t, m.values[k]);
    assert totals[j] == Entry(k, m.values[k]);
    assert Matches(totals[j], t.categoryId, t.monthId);
  }

  /** Some entry matches, so there is a first one. */
  lemma {:induction false} FirstMatch(totals: seq<SummaryTotal>, categoryId: Option<string>, monthId: string, j: nat)
    returns (f: nat)
    requires j < |totals| && Matches(totals[j], categoryId, monthId)
    ensures f <= j && Matches(totals[f], categoryId, monthId)
    ensures forall i :: 0 <= i < f ==> !Matches(totals[i], categoryId, monthId)
    decreases j
  {
    if i :| 0 <= i < j && Matches(totals[i], categoryId, monthId) {
      f := FirstMatch(totals, categoryId, monthId, i);
    } else {
      f := j;
    }
  }

  /** With no entry using the reserved id, matching reduces to equal category and month. */
  lemma MatchesPair(e: SummaryTotal, categoryId: Option<string>)
    requires e.categoryId != Some(UncategorizedId) && categoryId != Some(UncategorizedId)
    ensures CategoryKeyOf(e) == OrUncategorized(categoryId) <==> e.categoryId == categoryId
  {
  }

  lemma {:induction false} NoneSelected(txs: seq<Transaction>, p: Transaction -> bool)
    requires forall i :: 0 <= i < |txs| ==> !p(txs[i])
    ensures Filter(txs, p) == []
  {
    if txs != [] {
      NoneSelected(txs[1..], p);
    }
  }

  // ----- The order of the rows -----

  /** `totalByCategory.get(key) ?? 0`, the row total of a category. */
  function RowTotal(totalByCategory: OMap<int>, c: Category): int {
    GetOr(totalByCategory, c.id, 0)
  }

  /** `sortedCategories`: a stable sort by `totalA - totalB`. */
  function SortedCategories(categories: seq<Category>, totals: seq<SummaryTotal>): seq<Category> {
    var byCategory := TotalByCategory(categories, totals);
    Sort(categories, ByKey((c: Category) => RowTotal(byCategory, c)))
  }

  /**
   * The rows are the categories rearranged, in ascending order of their
   * totals, and categories with equal totals keep their incoming order.
   */
  lemma SortedCategoriesSpec(categories: seq<Category>, totals: seq<SummaryTotal>)
    ensures var byCategory := TotalByCategory(categories, totals);
            var r := SortedCategories(categories, totals);
            multiset(r) == multiset(categories) &&
            (forall i, j :: 0 <= i < j < |r| ==> RowTotal(byCategory, r[i]) <= RowTotal(byCategory, r[j])) &&
            forall e :: e in categories ==>
              Ties(r, ByKey((c: Category) => RowTotal(byCategory, c)), e)
              == Ties(categories, ByKey((c: Category) => RowTotal(byCategory, c)), e)
  {
    var byCategory := TotalByCategory(categories, totals);
    SortByKeySpec(categories, (c: Category) => RowTotal(byCategory, c));
  }
}
