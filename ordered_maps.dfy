/**
 * String-keyed maps that remember the order in which keys were first set, as
 * a JavaScript `Map` or a plain object with non-numeric keys does: setting an
 * existing key changes its value in place, setting a new key appends it, and
 * deleting a key removes it from the order.
 */
module OrderedMaps {
  import opened Ledger

  datatype OMap<V> = OMap(keys: seq<string>, values: map<string, V>)

  predicate Distinct(keys: seq<string>) {
    forall i, j :: 0 <= i < j < |keys| ==> keys[i] != keys[j]
  }

  /** The keys are distinct and are exactly the keys of the value map. */
  predicate Valid<V>(m: OMap<V>) {
    Distinct(m.keys) && (forall k :: k in m.keys ==> k in m.values) && (forall k :: k in m.values ==> k in m.keys)
  }

  function Empty<V>(): (r: OMap<V>)
    ensures Valid(r) && r.keys == [] && r.values == map[]
  {
    OMap([], map[])
  }

  /** `m.get(k)`, or `m[k]`: None stands for `undefined`. */
  function Get<V>(m: OMap<V>, k: string): (r: Option<V>)
    ensures r.Some? <==> k in m.values
    ensures r.Some? ==> r.value == m.values[k]
  {
    if k in m.values then Some(m.values[k]) else None
  }

  /** `m.get(k) ?? d`. */
  function GetOr<V>(m: OMap<V>, k: string, d: V): V {
    if k in m.values then m.values[k] else d
  }

  /** `m.set(k, v)`, or `m[k] = v`. */
  function Put<V>(m: OMap<V>, k: string, v: V): (r: OMap<V>)
    requires Valid(m)
    ensures Valid(r)
    ensures r.values == m.values[k := v]
    ensures r.keys == if k in m.values then m.keys else m.keys + [k]
  {
    if k in m.values then OMap(m.keys, m.values[k := v])
    else OMap(m.keys + [k], m.values[k := v])
  }

  /** After setting a key, reading it gives the new value and every other key reads as before. */
  lemma GetOrPut<V>(m: OMap<V>, k: string, v: V)
    requires Valid(m)
    ensures forall d: V :: GetOr(Put(m, k, v), k, d) == v
    ensures forall j: string, d: V :: j != k ==> GetOr(Put(m, k, v), j, d) == GetOr(m, j, d)
  {
  }

  /** Two keys set in turn: the values are those of the map, updated at both keys. */
  lemma PutTwice<V>(m: OMap<V>, a: string, va: V, b: string, vb: V)
    requires Valid(m)
    ensures Put(Put(m, a, va), b, vb).values == m.values[a := va][b := vb]
  {
  }

  /** The first of distinct keys does not occur again, and the rest stay distinct. */
  lemma DistinctTail(keys: seq<string>)
    requires Distinct(keys) && keys != []
    ensures keys[0] !in keys[1..] && Distinct(keys[1..])
  {
    forall j | 0 <= j < |keys[1..]| ensures keys[1..][j] != keys[0] {
      assert keys[1..][j] == keys[j + 1];
    }
    forall i, j | 0 <= i < j < |keys[1..]| ensures keys[1..][i] != keys[1..][j] {
      assert keys[1..][i] == keys[i + 1] && keys[1..][j] == keys[j + 1];
    }
  }

  function RemoveKey(keys: seq<string>, k: string): (r: seq<string>)
    ensures forall x :: x in r <==> x in keys && x != k
    ensures Distinct(keys) ==> Distinct(r)
    ensures k !in keys ==> r == keys
  {
    if keys == [] then []
    else
      var rest := RemoveKey(keys[1..], k);
      assert forall x :: x in keys[1..] ==> x in keys;
      assert Distinct(keys) ==> keys[0] !in keys[1..] && Distinct(keys[1..]) by {
        if Distinct(keys) {
          DistinctTail(keys);
        }
      }
      if keys[0] == k then rest else [keys[0]] + rest
  }

  /** `delete m[k]`. */
  function Delete<V>(m: OMap<V>, k: string): (r: OMap<V>)
    requires Valid(m)
    ensures Valid(r)
    ensures r.values == m.values - {k}
    ensures r.keys == RemoveKey(m.keys, k)
  {
    OMap(RemoveKey(m.keys, k), m.values - {k})
  }

  /** The values of the keys in `keys`, in that order (`Object.values`, `map.values()`). */
  function ValuesOf<V>(keys: seq<string>, values: map<string, V>): (r: seq<V>)
    requires forall k :: k in keys ==> k in values
    ensures |r| == |keys| && forall i :: 0 <= i < |keys| ==> r[i] == values[keys[i]]
  {
    if keys == [] then [] else [values[keys[0]]] + ValuesOf(keys[1..], values)
  }

  function Values<V>(m: OMap<V>): seq<V>
    requires Valid(m)
  {
    ValuesOf(m.keys, m.values)
  }

  function SumSeq(s: seq<int>): int {
    if s == [] then 0 else s[0] + SumSeq(s[1..])
  }

  /** The sum of all values, as `values().reduce((s, v) => s + v, 0)` computes it. */
  function Sum(m: OMap<int>): int
    requires Valid(m)
  {
    SumSeq(Values(m))
  }

  lemma {:induction false} SumSeqAppend(a: seq<int>, b: seq<int>)
    ensures SumSeq(a + b) == SumSeq(a) + SumSeq(b)
  {
    if a == [] {
      assert a + b == b;
    } else {
      assert (a + b)[1..] == a[1..] + b;
      SumSeqAppend(a[1..], b);
    }
  }

  /** Summing over distinct keys after one value changed moves the sum by the change. */
  lemma {:induction false} SumValuesUpdate(keys: seq<string>, values: map<string, int>, k: string, v: int)
    requires Distinct(keys) && k in keys
    requires forall x :: x in keys ==> x in values
    ensures SumSeq(ValuesOf(keys, values[k := v])) == SumSeq(ValuesOf(keys, values)) - values[k] + v
  {
    var vals := values[k := v];
    assert forall x :: x in keys[1..] ==> x in keys;
    DistinctTail(keys);
    if keys[0] == k {
      SumValuesUnchanged(keys[1..], values, k, v);
    } else {
      SumValuesUpdate(keys[1..], values, k, v);
    }
  }

  lemma {:induction false} SumValuesUnchanged(keys: seq<string>, values: map<string, int>, k: string, v: int)
    requires k !in keys
    requires forall x :: x in keys ==> x in values
    ensures SumSeq(ValuesOf(keys, values[k := v])) == SumSeq(ValuesOf(keys, values))
  {
    if keys != [] {
      assert forall x :: x in keys[1..] ==> x in keys;
      SumValuesUnchanged(keys[1..], values, k, v);
    }
  }

  /** Setting a key replaces its old contribution to the sum (0 when it was absent) by the new value. */
  lemma SumPut(m: OMap<int>, k: string, v: int)
    requires Valid(m)
    ensures Sum(Put(m, k, v)) == Sum(m) - GetOr(m, k, 0) + v
  {
    if k in m.values {
      SumPutExisting(m, k, v);
    } else {
      SumPutNew(m, k, v);
    }
  }

  lemma SumPutExisting(m: OMap<int>, k: string, v: int)
    requires Valid(m) && k in m.values
    ensures Sum(Put(m, k, v)) == Sum(m) - m.values[k] + v
  {
    var r := Put(m, k, v);
    assert r.keys == m.keys && r.values == m.values[k := v];
    SumValuesUpdate(m.keys, m.values, k, v);
  }

  lemma SumPutNew(m: OMap<int>, k: string, v: int)
    requires Valid(m) && k !in m.values
    ensures Sum(Put(m, k, v)) == Sum(m) + v
  {
    var r := Put(m, k, v);
    var vals := m.values[k := v];
    assert r.keys == m.keys + [k] && r.values == vals;
    SumValuesUnchanged(m.keys, m.values, k, v);
    var init := ValuesOf(m.keys, vals);
    ValuesOfSnoc(m.keys, vals, k);
    SumSeqAppend(init, [v]);
  }

  lemma ValuesOfSnoc<V>(keys: seq<string>, values: map<string, V>, k: string)
    requires forall x :: x in keys ==> x in values
    requires k in values
    ensures ValuesOf(keys + [k], values) == ValuesOf(keys, values) + [values[k]]
  {
    var a, b := ValuesOf(keys + [k], values), ValuesOf(keys, values) + [values[k]];
    forall i | 0 <= i < |a| ensures a[i] == b[i] {
      if i < |keys| {
        assert (keys + [k])[i] == keys[i];
      }
    }
  }

  /** Adding `x` to a key (reading a missing key as 0) adds `x` to the sum. */
  lemma SumAccumulate(m: OMap<int>, k: string, x: int)
    requires Valid(m)
    ensures Sum(Put(m, k, GetOr(m, k, 0) + x)) == Sum(m) + x
  {
    if k in m.values {
      SumPutExisting(m, k, m.values[k] + x);
    } else {
      SumPutNew(m, k, 0 + x);
    }
  }

  /** `m.set(k, (m.get(k) ?? 0) + x)`: add `x` to a key, a missing key read as 0. */
  function AddTo(m: OMap<int>, k: string, x: int): (r: OMap<int>)
    requires Valid(m)
    ensures Valid(r)
  {
    Put(m, k, GetOr(m, k, 0) + x)
  }

  /** Adding to a key adds to the sum. */
  lemma SumAddTo(m: OMap<int>, k: string, x: int)
    requires Valid(m)
    ensures Sum(AddTo(m, k, x)) == Sum(m) + x
  {
    var r := AddTo(m, k, x);
    assert r == Put(m, k, GetOr(m, k, 0) + x);
    SumAccumulate(m, k, x);
  }
}
