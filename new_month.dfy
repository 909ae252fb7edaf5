/**
 * The dialog that creates a month: its title, the opening balances it
 * proposes (the previous month's closing balances, one per active account),
 * which the user may edit, their total, and the balance list it sends.
 */
module NewMonth {
  import opened Ledger
  import opened Text
  import opened Numbers
  import OM = OrderedMaps

  const MonthNames: seq<string> := ["Enero", "Febrero", "Marzo", "Abril", "Mayo", "Junio",
                                    "Julio", "Agosto", "Septiembre", "Octubre", "Noviembre", "Diciembre"]

  /** `MONTH_NAMES[month - 1]`, which is `undefined` (written out as such) outside 1..12. */
  function MonthName(month: int): (r: string)
    ensures 1 <= month <= 12 ==> r == MonthNames[month - 1]
    ensures !(1 <= month <= 12) ==> r == "undefined"
  {
    if 1 <= month <= 12 then MonthNames[month - 1] else "undefined"
  }

  /** `String(year)`: the year as a number, i.e. `year * 100` cents. */
  function YearText(year: int): string {
    JsString(year * 100)
  }

  /** The title: the month's name, a space and the last two characters of the year. */
  function Label(year: int, month: int): string {
    MonthName(month) + " " + LastChars(YearText(year), 2)
  }

  /** For a year of two digits or more and a month in 1..12, the title ends with the year's last two digits. */
  lemma LabelSpec(year: int, month: int)
    requires year >= 10 && 1 <= month <= 12
    ensures Label(year, month) == MonthNames[month - 1] + " " + [DigitChar(year / 10 % 10), DigitChar(year % 10)]
  {
    var text := YearText(year);
    assert Abs(year * 100) / 100 == year && Abs(year * 100) % 100 == 0;
    assert text == Digits(year);
    var high := Digits(year / 10);
    assert text == high + [DigitChar(year % 10)];
    if year / 10 < 10 {
      assert high == [DigitChar(year / 10 % 10)];
    } else {
      assert high == Digits(year / 10 / 10) + [DigitChar(year / 10 % 10)];
    }
    assert LastChars(text, 2) == [high[|high| - 1], DigitChar(year % 10)];
  }

  /** A previous month's balance as the dialog receives it. */
  datatype PreviousBalance = PreviousBalance(accountId: string, accountName: string, balance: int)

  /** An entry of the balance list sent to create the month. */
  datatype BalanceEntry = BalanceEntry(accountId: string, amount: int)

  /** The map the effect builds: each account's balance, a later entry for an account replacing an earlier one. */
  function InitialAmounts(bs: seq<PreviousBalance>): (m: OM.OMap<int>)
    ensures OM.Valid(m)
  {
    if bs == [] then OM.Empty()
    else OM.Put(InitialAmounts(bs[..|bs| - 1]), bs[|bs| - 1].accountId, bs[|bs| - 1].balance)
  }

  /** `parseFloat(value)`, with NaN read as 0. */
  function AmountOf(value: string): int {
    match ParseFloat(value)
    case Some(v) => v
    case None => 0
  }

  /** A number as the input writes it reads back as that number. */
  lemma AmountOfNumber(c: int)
    ensures AmountOf(JsString(c)) == c
  {
    ParseJsString(c);
  }

  /** An empty input, or a lone minus sign, is not a number and reads as 0. */
  lemma AmountOfBlank()
    ensures AmountOf("") == 0 && AmountOf("-") == 0
  {
    assert TrimStart("") == "";
    assert ScanUnsigned("") == None;
    var minus := "-";
    assert TrimStart(minus) == minus by {
      assert !IsSpace(minus[0]);
    }
    assert minus[1..] == "";
    assert ScanDecimal(minus) == None;
  }

  /** The list `handleConfirm` sends: one entry per balance, in order, with the edited amount or 0. */
  function BalancesList(bs: seq<PreviousBalance>, edited: OM.OMap<int>): (list: seq<BalanceEntry>)
    ensures |list| == |bs|
    ensures forall i :: 0 <= i < |bs| ==>
              list[i].accountId == bs[i].accountId && list[i].amount == OM.GetOr(edited, bs[i].accountId, 0)
  {
    if bs == [] then []
    else [BalanceEntry(bs[0].accountId, OM.GetOr(edited, bs[0].accountId, 0))] + BalancesList(bs[1..], edited)
  }

  predicate DistinctAccounts(bs: seq<PreviousBalance>) {
    forall i, j :: 0 <= i < j < |bs| ==> bs[i].accountId != bs[j].accountId
  }

  function BalanceSum(bs: seq<PreviousBalance>): int {
    if bs == [] then 0 else BalanceSum(bs[..|bs| - 1]) + bs[|bs| - 1].balance
  }

  lemma DistinctInit(bs: seq<PreviousBalance>)
    requires DistinctAccounts(bs) && bs != []
    ensures DistinctAccounts(bs[..|bs| - 1])
    ensures forall i :: 0 <= i < |bs| - 1 ==> bs[i].accountId != bs[|bs| - 1].accountId
  {
  }

  /**
   * With one balance per account, the map holds exactly the balances'
   * accounts, in their order, each with its own balance.
   */
  lemma {:induction false} InitialAmountsSpec(bs: seq<PreviousBalance>)
    requires DistinctAccounts(bs)
    ensures |InitialAmounts(bs).keys| == |bs|
    ensures forall i :: 0 <= i < |bs| ==>
              InitialAmounts(bs).keys[i] == bs[i].accountId && OM.GetOr(InitialAmounts(bs), bs[i].accountId, 0) == bs[i].balance
  {
    if bs != [] {
      var init, last := bs[..|bs| - 1], bs[|bs| - 1];
      DistinctInit(bs);
      InitialAmountsSpec(init);
      var before := InitialAmounts(init);
      assert last.accountId !in before.keys by {
        forall k | 0 <= k < |before.keys| ensures before.keys[k] != last.accountId {
          assert before.keys[k] == init[k].accountId;
        }
      }
      forall i | 0 <= i < |bs|
        ensures InitialAmounts(bs).keys[i] == bs[i].accountId && OM.GetOr(InitialAmounts(bs), bs[i].accountId, 0) == bs[i].balance
      {
        if i < |bs| - 1 {
          assert bs[i] == init[i];
        }
      }
    }
  }

  /** An account without a balance has no entry in the map. */
  lemma {:induction false} NotLoaded(bs: seq<PreviousBalance>, accountId: string)
    requires forall i :: 0 <= i < |bs| ==> bs[i].accountId != accountId
    ensures accountId !in InitialAmounts(bs).values
  {
    if bs != [] {
      NotLoaded(bs[..|bs| - 1], accountId);
    }
  }

  /** With one balance per account, the total the dialog shows first is the sum of the balances. */
  lemma {:induction false} InitialTotal(bs: seq<PreviousBalance>)
    requires DistinctAccounts(bs)
    ensures OM.Sum(InitialAmounts(bs)) == BalanceSum(bs)
  {
    if bs != [] {
      var init, last := bs[..|bs| - 1], bs[|bs| - 1];
      DistinctInit(bs);
      InitialTotal(init);
      var before := InitialAmounts(init);
      NotLoaded(init, last.accountId);
      OM.SumPutNew(before, last.accountId, last.balance);
    }
  }

  /** Confirming without editing sends each account's previous balance. */
  lemma ConfirmUnedited(bs: seq<PreviousBalance>)
    requires DistinctAccounts(bs)
    ensures var list := BalancesList(bs, InitialAmounts(bs));
            forall i :: 0 <= i < |bs| ==> list[i] == BalanceEntry(bs[i].accountId, bs[i].balance)
  {
    InitialAmountsSpec(bs);
  }

  /** The dialog's state: the balances as edited so far. */
  class NewMonthForm {
    var editedAmounts: OM.OMap<int>

    ghost predicate Valid()
      reads this
    {
      OM.Valid(editedAmounts)
    }

    /** An empty map, before the balances arrive. */
    constructor ()
      ensures Valid() && editedAmounts == OM.Empty()
    {
      editedAmounts := OM.Empty();
    }

    /** The effect that runs when the balances arrive: the map is rebuilt from them. */
    method LoadBalances(balances: Option<seq<PreviousBalance>>)
      requires Valid()
      modifies this
      ensures Valid()
      ensures balances.Some? ==> editedAmounts == InitialAmounts(balances.value)
      ensures balances.None? ==> editedAmounts == old(editedAmounts)
    {
      if balances.None? {
        return;
      }
      var bs := balances.value;
      var amounts := OM.Empty();
      for i := 0 to |bs|
        invariant OM.Valid(amounts) && amounts == InitialAmounts(bs[..i])
      {
        assert bs[..i + 1][..i] == bs[..i];
        amounts := OM.Put(amounts, bs[i].accountId, bs[i].balance);
      }
      assert bs[..|bs|] == bs;
      editedAmounts := amounts;
    }

    /** `total`: the sum of every edited amount. */
    function Total(): int
      reads this
      requires Valid()
    {
      OM.Sum(editedAmounts)
    }

    /**
     * `handleAmountChange`: the account's amount becomes the typed number (0
     * when it is not one); every other account keeps its amount, and the
     * total moves by the difference.
     */
    method ChangeAmount(accountId: string, value: string)
      requires Valid()
      modifies this
      ensures Valid()
      ensures editedAmounts == OM.Put(old(editedAmounts), accountId, AmountOf(value))
      ensures OM.GetOr(editedAmounts, accountId, 0) == AmountOf(value)
      ensures forall k :: k != accountId ==> OM.GetOr(editedAmounts, k, 0) == OM.GetOr(old(editedAmounts), k, 0)
      ensures Total() == old(Total()) - OM.GetOr(old(editedAmounts), accountId, 0) + AmountOf(value)
    {
      var v := AmountOf(value);
      OM.SumPut(editedAmounts, accountId, v);
      OM.GetOrPut(editedAmounts, accountId, v);
      editedAmounts := OM.Put(editedAmounts, accountId, v);
    }

    /** `handleConfirm`: nothing without balances, else one entry per balance with its edited amount. */
    method Confirm(balances: Option<seq<PreviousBalance>>) returns (list: Option<seq<BalanceEntry>>)
      requires Valid()
      ensures balances.None? <==> list.None?
      ensures list.Some? ==> list.value == BalancesList(balances.value, editedAmounts)
    {
      if balances.None? {
        return None;
      }
      var bs := balances.value;
      var entries: seq<BalanceEntry> := [];
      for i := 0 to |bs|
        invariant |entries| == i
        invariant forall k :: 0 <= k < i ==>
                    entries[k] == BalanceEntry(bs[k].accountId, OM.GetOr(editedAmounts, bs[k].accountId, 0))
      {
        entries := entries + [BalanceEntry(bs[i].accountId, OM.GetOr(editedAmounts, bs[i].accountId, 0))];
      }
      list := Some(entries);
    }
  }
}
