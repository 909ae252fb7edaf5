/**
 * The fiscal-range month filter: a month belongs to the range when its
 * `year * 100 + month` lies between the encodings of the range's ends.
 */
module Periods {
  import opened Ledger

  /** A year and month encoded as `year * 100 + month`, which orders months chronologically. */
  function Period(year: int, month: int): int {
    year * 100 + month
  }

  predicate InRange(m: Month, startYear: int, startMonth: int, endYear: int, endMonth: int) {
    Period(startYear, startMonth) <= Period(m.year, m.month) <= Period(endYear, endMonth)
  }

  /** The months of the range, in their incoming order. */
  function MonthsInRange(months: seq<Month>, startYear: int, startMonth: int, endYear: int, endMonth: int): (r: seq<Month>)
    ensures |r| <= |months|
    ensures forall i :: 0 <= i < |r| ==> r[i] in months && InRange(r[i], startYear, startMonth, endYear, endMonth)
    ensures forall i :: 0 <= i < |months| && InRange(months[i], startYear, startMonth, endYear, endMonth) ==> months[i] in r
  {
    if months == [] then []
    else
      var rest := MonthsInRange(months[1..], startYear, startMonth, endYear, endMonth);
      assert forall i :: 1 <= i < |months| ==> months[i] == months[1..][i - 1];
      (if InRange(months[0], startYear, startMonth, endYear, endMonth) then [months[0]] else []) + rest
  }

  /** The filter keeps the incoming order: it distributes over concatenation. */
  lemma {:induction false} MonthsInRangeAppend(a: seq<Month>, b: seq<Month>, startYear: int, startMonth: int, endYear: int, endMonth: int)
    ensures MonthsInRange(a + b, startYear, startMonth, endYear, endMonth)
         == MonthsInRange(a, startYear, startMonth, endYear, endMonth) + MonthsInRange(b, startYear, startMonth, endYear, endMonth)
  {
    if a == [] {
      assert a + b == b;
    } else {
      assert (a + b)[1..] == a[1..] + b;
      MonthsInRangeAppend(a[1..], b, startYear, startMonth, endYear, endMonth);
    }
  }

  predicate Chronological(months: seq<Month>) {
    forall i, j :: 0 <= i < j < |months| ==> Period(months[i].year, months[i].month) <= Period(months[j].year, months[j].month)
  }

  /** Months fetched in ascending year and month stay chronological after filtering. */
  lemma {:induction false} MonthsInRangeChronological(months: seq<Month>, startYear: int, startMonth: int, endYear: int, endMonth: int)
    requires Chronological(months)
    ensures Chronological(MonthsInRange(months, startYear, startMonth, endYear, endMonth))
  {
    if months != [] {
      var h, tail := months[0], months[1..];
      ChronologicalTail(months);
      MonthsInRangeChronological(tail, startYear, startMonth, endYear, endMonth);
      var rest := MonthsInRange(tail, startYear, startMonth, endYear, endMonth);
      if InRange(h, startYear, startMonth, endYear, endMonth) {
        forall k | 0 <= k < |rest| ensures Period(h.year, h.month) <= Period(rest[k].year, rest[k].month) {
          var x := rest[k];
          assert x in tail;
          var n :| 0 <= n < |tail| && tail[n] == x;
        }
        ChronologicalCons(h, rest);
        assert MonthsInRange(months, startYear, startMonth, endYear, endMonth) == [h] + rest;
      } else {
        assert MonthsInRange(months, startYear, startMonth, endYear, endMonth) == rest;
      }
    }
  }

  lemma ChronologicalTail(months: seq<Month>)
    requires Chronological(months) && months != []
    ensures Chronological(months[1..])
    ensures forall n :: 0 <= n < |months[1..]| ==>
              Period(months[0].year, months[0].month) <= Period(months[1..][n].year, months[1..][n].month)
  {
    var tail := months[1..];
    forall i, j | 0 <= i < j < |tail|
      ensures Period(tail[i].year, tail[i].month) <= Period(tail[j].year, tail[j].month)
    {
      assert tail[i] == months[i + 1] && tail[j] == months[j + 1];
    }
    forall n | 0 <= n < |tail| ensures Period(months[0].year, months[0].month) <= Period(tail[n].year, tail[n].month) {
      assert tail[n] == months[n + 1];
    }
  }

  lemma ChronologicalCons(h: Month, rest: seq<Month>)
    requires Chronological(rest)
    requires forall k :: 0 <= k < |rest| ==> Period(h.year, h.month) <= Period(rest[k].year, rest[k].month)
    ensures Chronological([h] + rest)
  {
    var r := [h] + rest;
    forall i, j | 0 <= i < j < |r| ensures Period(r[i].year, r[i].month) <= Period(r[j].year, r[j].month) {
      assert r[j] == rest[j - 1];
      if i > 0 {
        assert r[i] == rest[i - 1];
      }
    }
  }
}
