/**
 * The sidebar's month list: which month "create next month" proposes (the
 * month after the latest one) and which month the current page shows (the
 * id in a `/month/<id>` path).
 */
module MonthRollover {
  import opened Ledger
  import opened Text
  import opened Periods

  datatype YearMonth = YearMonth(year: int, month: int)

  predicate ValidMonth(m: int) {
    1 <= m <= 12
  }

  /** December rolls over to January of the next year; any other month moves on by one. */
  function After(year: int, month: int): (r: YearMonth)
    ensures ValidMonth(month) ==> ValidMonth(r.month) && Period(year, month) < Period(r.year, r.month)
  {
    if month == 12 then YearMonth(year + 1, 1) else YearMonth(year, month + 1)
  }

  /**
   * `nextMonth` when the list is not empty: the month after `months[0]`, the
   * latest month of a list fetched newest first. None when there are no
   * months (the page then falls back to today's month).
   */
  function NextMonth(months: seq<Month>): (r: Option<YearMonth>)
    ensures r.None? <==> months == []
    ensures r.Some? && ValidMonth(months[0].month) ==>
              ValidMonth(r.value.month) && Period(months[0].year, months[0].month) < Period(r.value.year, r.value.month)
  {
    if months == [] then None else Some(After(months[0].year, months[0].month))
  }

  /**
   * The month after a valid month is the first valid month past it: every
   * valid month later than `(year, month)` is no earlier than `After(year, month)`.
   */
  lemma AfterIsSuccessor(year: int, month: int, y: int, m: int)
    requires ValidMonth(month) && ValidMonth(m)
    requires Period(year, month) < Period(y, m)
    ensures Period(After(year, month).year, After(year, month).month) <= Period(y, m)
  {
    if y > year {
      assert Period(y, m) >= (year + 1) * 100 + 1;
    }
  }

  /** Months ordered newest first, as the months query returns them. */
  predicate NewestFirst(months: seq<Month>) {
    forall i, j :: 0 <= i < j < |months| ==>
      Period(months[j].year, months[j].month) <= Period(months[i].year, months[i].month)
  }

  /**
   * With the list newest first and every month valid, the proposed month is
   * later than every month already in the list, so it is not one of them.
   */
  lemma NextMonthIsNew(months: seq<Month>)
    requires NewestFirst(months) && months != []
    requires forall k :: 0 <= k < |months| ==> ValidMonth(months[k].month)
    ensures var next := NextMonth(months).value;
            forall k :: 0 <= k < |months| ==>
              Period(months[k].year, months[k].month) < Period(next.year, next.month)
              && (months[k].year, months[k].month) != (next.year, next.month)
  {
    var next := NextMonth(months).value;
    forall k | 0 <= k < |months|
      ensures Period(months[k].year, months[k].month) < Period(next.year, next.month)
    {
      if k > 0 {
        assert Period(months[k].year, months[k].month) <= Period(months[0].year, months[0].month);
      }
    }
  }

  // ----- The month route -----

  const MonthPrefix: string := "/month/"

  /** `[a-f0-9-]` under the `i` flag: a hexadecimal digit of either case, or a dash. */
  predicate IsIdChar(c: char) {
    '0' <= c <= '9' || 'a' <= c <= 'f' || 'A' <= c <= 'F' || c == '-'
  }

  function AllIdChars(s: string): (b: bool)
    ensures b <==> forall i :: 0 <= i < |s| ==> IsIdChar(s[i])
  {
    s == [] || (IsIdChar(s[0]) && AllIdChars(s[1..]))
  }

  /**
   * `pathname.match(/^\/month\/([a-f0-9-]+)$/i)?.[1] ?? null`: the whole
   * path is `/month/` (in any letter case) followed by one or more id
   * characters, and the id is what follows the prefix.
   */
  function CurrentMonthId(pathname: string): (r: Option<string>)
    ensures r.Some? <==>
              |pathname| > |MonthPrefix| && Lower(pathname[..|MonthPrefix|]) == MonthPrefix
              && forall i :: |MonthPrefix| <= i < |pathname| ==> IsIdChar(pathname[i])
    ensures r.Some? ==> r.value != [] && pathname[..|MonthPrefix|] + r.value == pathname
  {
    var n := |MonthPrefix|;
    if |pathname| <= n then None
    else
      var id := pathname[n..];
      assert forall i :: n <= i < |pathname| ==> pathname[i] == id[i - n];
      if Lower(pathname[..n]) == MonthPrefix && AllIdChars(id) then Some(id) else None
  }

  /**
   * A path made of `/month/`, in any letter case, and one or more id
   * characters reads back as that id: the `i` flag makes the prefix match
   * whatever its case.
   */
  lemma CaseInsensitiveRoute(prefix: string, id: string)
    requires Lower(prefix) == MonthPrefix
    requires id != [] && forall i :: 0 <= i < |id| ==> IsIdChar(id[i])
    ensures CurrentMonthId(prefix + id) == Some(id)
  {
    var path := prefix + id;
    var n := |MonthPrefix|;
    assert path[..n] == prefix && path[n..] == id;
    forall i | n <= i < |path| ensures IsIdChar(path[i]) {
      assert path[i] == id[i - n];
    }
  }

  lemma LowerMonthPrefix()
    ensures Lower(MonthPrefix) == MonthPrefix
  {
  }

  /** The path the app navigates to after creating a month reads back as that month's id. */
  lemma MonthRouteRoundTrip(id: string)
    requires id != [] && forall i :: 0 <= i < |id| ==> IsIdChar(id[i])
    ensures CurrentMonthId(MonthPrefix + id) == Some(id)
  {
    LowerMonthPrefix();
    CaseInsensitiveRoute(MonthPrefix, id);
  }
}
