/**
 * The fixed expense-category priority taken from the company's spreadsheet:
 * categories named in the list come first, in list order; the others follow,
 * in the order they arrived (by name, as fetched), because the sort is stable.
 */
module CategoryOrder {
  import opened Ledger
  import opened StableSort

  const Priority: seq<string> := [
    "Combustibles", "Compra Rodados", "Repuestos y Reparaciones", "Peajes",
    "Instalaciones", "Alquileres", "Impuestos", "Sueldos", "Sindicato",
    "Federacion", "Directores", "Gastos bancarios", "Prestamos", "Gastos Varios",
    "RR", "Compra USD"
  ]

  /** `s.indexOf(x)`: the first position of `x`, or -1. */
  function IndexOf(s: seq<string>, x: string): (i: int)
    ensures -1 <= i < |s|
    ensures i >= 0 ==> s[i] == x && x !in s[..i]
    ensures i < 0 ==> x !in s
  {
    if s == [] then -1
    else if s[0] == x then 0
    else
      var j := IndexOf(s[1..], x);
      assert s == [s[0]] + s[1..];
      if j < 0 then -1
      else
        assert s[..j + 1] == [s[0]] + s[1..][..j];
        j + 1
  }

  predicate Listed(c: Category) {
    c.name in Priority
  }

  predicate Unlisted(c: Category) {
    c.name !in Priority
  }

  /** The sort key: the position in the priority list, or 999 for any other name. */
  function Rank(c: Category): (k: int)
    ensures Listed(c) ==> 0 <= k < |Priority| && Priority[k] == c.name
    ensures Unlisted(c) ==> k == 999
  {
    var i := IndexOf(Priority, c.name);
    if i == -1 then 999 else i
  }

  /** `[...categories].sort((a, b) => rank(a) - rank(b))`. */
  function SortCategories(categories: seq<Category>): (r: seq<Category>)
    ensures |r| == |categories|
  {
    var r := Sort(categories, ByKey(Rank));
    assert |multiset(r)| == |multiset(categories)|;
    r
  }

  lemma {:induction false} UnlistedTies(s: seq<Category>, e: Category)
    requires Unlisted(e)
    ensures Ties(s, ByKey(Rank), e) == Filter(s, Unlisted)
  {
    if s != [] {
      assert Rank(e) == 999;
      assert ByKey(Rank)(s[0], e) == Rank(s[0]) - Rank(e);
      UnlistedTies(s[1..], e);
    }
  }

  /**
   * The sorted categories are a permutation of the input; listed names come
   * before unlisted ones and in list order; unlisted names keep their
   * incoming order.
   */
  lemma SortCategoriesSpec(categories: seq<Category>)
    ensures multiset(SortCategories(categories)) == multiset(categories)
    ensures forall i, j :: 0 <= i < j < |SortCategories(categories)| && Listed(SortCategories(categories)[j]) ==>
              Listed(SortCategories(categories)[i])
              && IndexOf(Priority, SortCategories(categories)[i].name) <= IndexOf(Priority, SortCategories(categories)[j].name)
    ensures Filter(SortCategories(categories), Unlisted) == Filter(categories, Unlisted)
  {
    var r := SortCategories(categories);
    SortByKeySpec(categories, Rank);
    forall i, j | 0 <= i < j < |r| && Listed(r[j])
      ensures Listed(r[i]) && IndexOf(Priority, r[i].name) <= IndexOf(Priority, r[j].name)
    {
      assert Rank(r[i]) <= Rank(r[j]);
    }
    if e :| e in categories && Unlisted(e) {
      UnlistedTies(r, e);
      UnlistedTies(categories, e);
    } else {
      NoUnlisted(categories);
      assert forall c :: c in r ==> c in categories;
      NoUnlisted(r);
    }
  }

  lemma {:induction false} NoUnlisted(s: seq<Category>)
    requires forall c :: c in s ==> Listed(c)
    ensures Filter(s, Unlisted) == []
  {
    if s != [] {
      assert forall c :: c in s[1..] ==> c in s;
      NoUnlisted(s[1..]);
    }
  }
}
