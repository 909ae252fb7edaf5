/**
 * `Array.prototype.sort` with a comparator, which is stable: the result is
 * ordered by the comparator and elements it ranks equal keep their incoming
 * order. Modelled as an insertion sort, whose output is the unique stable
 * ordering of its input.
 */
module StableSort {

  /**
   * `cmp` behaves as a consistent comparator on the elements of `s`: opposite
   * signs when the arguments are swapped, and "not after" is transitive.
   */
  ghost predicate Consistent<T(!new)>(s: seq<T>, cmp: (T, T) -> int) {
    (forall a, b :: a in s && b in s ==> (cmp(a, b) < 0 <==> cmp(b, a) > 0))
    && (forall a, b, c :: a in s && b in s && c in s && cmp(a, b) <= 0 && cmp(b, c) <= 0 ==> cmp(a, c) <= 0)
  }

  /** No element is ranked after a later one. */
  ghost predicate Sorted<T>(s: seq<T>, cmp: (T, T) -> int) {
    forall i, j :: 0 <= i < j < |s| ==> cmp(s[i], s[j]) <= 0
  }

  /** The elements of `s` that `cmp` ranks equal to `e`, in their order in `s`. */
  function Ties<T>(s: seq<T>, cmp: (T, T) -> int, e: T): seq<T> {
    if s == [] then [] else (if cmp(s[0], e) == 0 then [s[0]] else []) + Ties(s[1..], cmp, e)
  }

  /** Places `x` before the first element it is not ranked after. */
  function Insert<T(!new)>(x: T, t: seq<T>, cmp: (T, T) -> int): (r: seq<T>)
    ensures multiset(r) == multiset(t) + multiset{x}
    ensures forall z :: z in r <==> z == x || z in t
  {
    if t == [] then [x]
    else if cmp(x, t[0]) <= 0 then [x] + t
    else
      var rest := Insert(x, t[1..], cmp);
      assert t == [t[0]] + t[1..];
      [t[0]] + rest
  }

  /** `[...s].sort(cmp)`. */
  function Sort<T(!new)>(s: seq<T>, cmp: (T, T) -> int): (r: seq<T>)
    ensures multiset(r) == multiset(s)
    ensures forall z :: z in r <==> z in s
  {
    if s == [] then []
    else
      assert s == [s[0]] + s[1..];
      Insert(s[0], Sort(s[1..], cmp), cmp)
  }

  /** An element not ranked after any element of a sorted sequence can lead it. */
  lemma ConsSorted<T>(h: T, r: seq<T>, cmp: (T, T) -> int)
    requires Sorted(r, cmp)
    requires forall i :: 0 <= i < |r| ==> cmp(h, r[i]) <= 0
    ensures Sorted([h] + r, cmp)
  {
    var c := [h] + r;
    forall i, j | 0 <= i < j < |c| ensures cmp(c[i], c[j]) <= 0 {
      if i > 0 {
        assert c[i] == r[i - 1] && c[j] == r[j - 1];
      } else {
        assert c[j] == r[j - 1];
      }
    }
  }

  lemma TailSorted<T>(t: seq<T>, cmp: (T, T) -> int)
    requires Sorted(t, cmp) && t != []
    ensures Sorted(t[1..], cmp)
    ensures forall i :: 0 <= i < |t[1..]| ==> cmp(t[0], t[1..][i]) <= 0
  {
    forall i, j | 0 <= i < j < |t[1..]| ensures cmp(t[1..][i], t[1..][j]) <= 0 {
      assert t[1..][i] == t[i + 1] && t[1..][j] == t[j + 1];
    }
    forall i | 0 <= i < |t[1..]| ensures cmp(t[0], t[1..][i]) <= 0 {
      assert t[1..][i] == t[i + 1];
    }
  }

  lemma {:induction false} InsertSorted<T(!new)>(x: T, t: seq<T>, cmp: (T, T) -> int, u: seq<T>)
    requires Consistent(u, cmp) && x in u && (forall y :: y in t ==> y in u)
    requires Sorted(t, cmp)
    ensures Sorted(Insert(x, t, cmp), cmp)
  {
    if t == [] {
    } else if cmp(x, t[0]) <= 0 {
      forall i | 0 <= i < |t| ensures cmp(x, t[i]) <= 0 {
        assert t[0] in u && t[i] in u;
        if i > 0 { assert cmp(t[0], t[i]) <= 0; }
      }
      ConsSorted(x, t, cmp);
    } else {
      TailSorted(t, cmp);
      assert forall y :: y in t[1..] ==> y in t;
      InsertSorted(x, t[1..], cmp, u);
      var rest := Insert(x, t[1..], cmp);
      assert t[0] in u;
      assert cmp(t[0], x) < 0;
      forall i | 0 <= i < |rest| ensures cmp(t[0], rest[i]) <= 0 {
        var z := rest[i];
        assert z in rest;
        if z != x {
          var k :| 0 <= k < |t[1..]| && t[1..][k] == z;
        }
      }
      ConsSorted(t[0], rest, cmp);
    }
  }

  lemma {:induction false} SortSorted<T(!new)>(s: seq<T>, cmp: (T, T) -> int, u: seq<T>)
    requires Consistent(u, cmp) && (forall y :: y in s ==> y in u)
    ensures Sorted(Sort(s, cmp), cmp)
  {
    if s != [] {
      assert s[0] in s;
      assert forall y :: y in s[1..] ==> y in s;
      SortSorted(s[1..], cmp, u);
      InsertSorted(s[0], Sort(s[1..], cmp), cmp, u);
    }
  }

  /** Two elements ranked equal to a third are not ranked apart. */
  lemma TiesNotApart<T(!new)>(x: T, y: T, e: T, cmp: (T, T) -> int, u: seq<T>)
    requires Consistent(u, cmp) && x in u && y in u && e in u
    requires cmp(x, y) > 0
    ensures !(cmp(x, e) == 0 && cmp(y, e) == 0)
  {
    if cmp(y, e) == 0 {
      assert cmp(e, y) == 0;
    }
  }

  /** Ties of a sequence with a known first element. */
  lemma TiesCons<T>(h: T, r: seq<T>, cmp: (T, T) -> int, e: T)
    ensures Ties([h] + r, cmp, e) == (if cmp(h, e) == 0 then [h] else []) + Ties(r, cmp, e)
  {
    assert ([h] + r)[1..] == r;
  }

  lemma {:induction false} InsertTies<T(!new)>(x: T, t: seq<T>, cmp: (T, T) -> int, e: T, u: seq<T>)
    requires Consistent(u, cmp) && x in u && e in u && (forall y :: y in t ==> y in u)
    ensures Ties(Insert(x, t, cmp), cmp, e) == (if cmp(x, e) == 0 then [x] else []) + Ties(t, cmp, e)
  {
    if t == [] {
      TiesCons(x, [], cmp, e);
    } else if cmp(x, t[0]) <= 0 {
      TiesCons(x, t, cmp, e);
    } else {
      var tail := t[1..];
      assert forall y :: y in tail ==> y in t;
      InsertTies(x, tail, cmp, e, u);
      assert t[0] in u;
      TiesNotApart(x, t[0], e, cmp, u);
      InsertTiesStep(x, t, cmp, e);
    }
  }

  /** Inserting past the head: the head's tie (if any) and `x`'s tie (if any) cannot both occur. */
  lemma InsertTiesStep<T(!new)>(x: T, t: seq<T>, cmp: (T, T) -> int, e: T)
    requires t != [] && cmp(x, t[0]) > 0
    requires !(cmp(x, e) == 0 && cmp(t[0], e) == 0)
    requires Ties(Insert(x, t[1..], cmp), cmp, e) == (if cmp(x, e) == 0 then [x] else []) + Ties(t[1..], cmp, e)
    ensures Ties(Insert(x, t, cmp), cmp, e) == (if cmp(x, e) == 0 then [x] else []) + Ties(t, cmp, e)
  {
    var r, tail := Insert(x, t, cmp), t[1..];
    var more := Ties(tail, cmp, e);
    assert r == [t[0]] + Insert(x, tail, cmp);
    assert r != [] && r[0] == t[0] && r[1..] == Insert(x, tail, cmp);
    if cmp(x, e) == 0 {
      TiesSkip(r, cmp, e);
      TiesSkip(t, cmp, e);
    } else if cmp(t[0], e) == 0 {
      TiesKeep(r, cmp, e);
      TiesKeep(t, cmp, e);
      assert [] + more == more;
      assert [] + ([t[0]] + more) == [t[0]] + more;
    } else {
      TiesSkip(r, cmp, e);
      TiesSkip(t, cmp, e);
      assert [] + more == more;
    }
  }

  lemma TiesSkip<T>(s: seq<T>, cmp: (T, T) -> int, e: T)
    requires s != [] && cmp(s[0], e) != 0
    ensures Ties(s, cmp, e) == Ties(s[1..], cmp, e)
  {
    assert [] + Ties(s[1..], cmp, e) == Ties(s[1..], cmp, e);
  }

  lemma TiesKeep<T>(s: seq<T>, cmp: (T, T) -> int, e: T)
    requires s != [] && cmp(s[0], e) == 0
    ensures Ties(s, cmp, e) == [s[0]] + Ties(s[1..], cmp, e)
  {
  }

  lemma {:induction false} SortTies<T(!new)>(s: seq<T>, cmp: (T, T) -> int, e: T, u: seq<T>)
    requires Consistent(u, cmp) && e in u && (forall y :: y in s ==> y in u)
    ensures Ties(Sort(s, cmp), cmp, e) == Ties(s, cmp, e)
  {
    if s != [] {
      assert s[0] in s;
      assert forall y :: y in s[1..] ==> y in s;
      SortTies(s[1..], cmp, e, u);
      InsertTies(s[0], Sort(s[1..], cmp), cmp, e, u);
    }
  }

  /**
   * With a consistent comparator the sort returns a permutation of its input,
   * ordered by the comparator, in which elements ranked equal keep their order.
   */
  lemma SortSpec<T(!new)>(s: seq<T>, cmp: (T, T) -> int)
    requires Consistent(s, cmp)
    ensures multiset(Sort(s, cmp)) == multiset(s)
    ensures Sorted(Sort(s, cmp), cmp)
    ensures forall e :: e in s ==> Ties(Sort(s, cmp), cmp, e) == Ties(s, cmp, e)
  {
    SortSorted(s, cmp, s);
    forall e | e in s ensures Ties(Sort(s, cmp), cmp, e) == Ties(s, cmp, e) {
      SortTies(s, cmp, e, s);
    }
  }

  /** The comparator `(a, b) => key(a) - key(b)`. */
  function ByKey<T>(key: T -> int): (T, T) -> int {
    (a: T, b: T) => key(a) - key(b)
  }

  lemma KeyConsistent<T(!new)>(s: seq<T>, key: T -> int)
    ensures Consistent(s, ByKey(key))
  {
  }

  /** Sorting by a numeric key: ascending keys, a permutation, and equal keys in their incoming order. */
  lemma SortByKeySpec<T(!new)>(s: seq<T>, key: T -> int)
    ensures multiset(Sort(s, ByKey(key))) == multiset(s)
    ensures forall i, j :: 0 <= i < j < |Sort(s, ByKey(key))| ==> key(Sort(s, ByKey(key))[i]) <= key(Sort(s, ByKey(key))[j])
    ensures forall e :: e in s ==> Ties(Sort(s, ByKey(key)), ByKey(key), e) == Ties(s, ByKey(key), e)
  {
    KeyConsistent(s, key);
    SortSpec(s, ByKey(key));
    var r := Sort(s, ByKey(key));
    forall i, j | 0 <= i < j < |r| ensures key(r[i]) <= key(r[j]) {
      assert ByKey(key)(r[i], r[j]) <= 0;
    }
  }
}
