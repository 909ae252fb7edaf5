/**
 * The Argentine currency format, `$1.234.567,00`: an optional minus sign, a
 * dollar sign, the whole part of the magnitude grouped in threes with dots,
 * a comma and exactly two decimals. Amounts are integer cents.
 */
module Format {
  import opened Ledger
  import opened Text
  import opened Numbers

  /** The two decimals of `r` cents (`toFixed(2)`'s fraction). */
  function TwoDigits(r: nat): (s: string)
    requires r < 100
    ensures |s| == 2 && AllDigits(s) && ValueOf(s) == r
  {
    var s := [DigitChar(r / 10), DigitChar(r % 10)];
    assert s[..1] == [DigitChar(r / 10)] && s[..1][..0] == [];
    assert ValueOf(s[..1]) == r / 10;
    s
  }

  /**
   * `replace(/\B(?=(\d{3})+(?!\d))/g, ".")` on a run of digits: a dot at
   * every inner position followed by a multiple of three digits.
   */
  function Group(d: string): string {
    if |d| <= 3 then d else Group(d[..|d| - 3]) + "." + d[|d| - 3..]
  }

  /** `formatCurrency(value)` for an amount of `value` cents. */
  function FormatCurrency(value: int): string {
    var m := Abs(value);
    var sign := if value < 0 then "-" else "";
    sign + "$" + Group(Digits(m / 100)) + "," + TwoDigits(m % 100)
  }

  // ----- What the text says -----

  lemma {:induction false} RemoveAllAppend(a: string, b: string, c: char)
    ensures RemoveAll(a + b, c) == RemoveAll(a, c) + RemoveAll(b, c)
  {
    if a == [] {
      assert a + b == b;
    } else {
      assert (a + b)[1..] == a[1..] + b;
      RemoveAllAppend(a[1..], b, c);
    }
  }

  /**
   * Grouping a run of digits adds one dot per full group of three after the
   * first, puts the dots exactly at every fourth place from the right, and
   * removing them gives the digits back.
   */
  lemma GroupSpec(d: string)
    requires AllDigits(d) && d != []
    ensures |Group(d)| == |d| + (|d| - 1) / 3
    ensures forall i :: 0 <= i < |Group(d)| ==> (Group(d)[i] == '.' <==> (|Group(d)| - i) % 4 == 0)
    ensures RemoveAll(Group(d), '.') == d
  {
    GroupLength(d);
    GroupDots(d);
    GroupRemove(d);
  }

  lemma {:induction false} GroupLength(d: string)
    requires d != []
    ensures |Group(d)| == |d| + (|d| - 1) / 3
  {
    if |d| > 3 {
      var init := d[..|d| - 3];
      GroupLength(init);
      assert |Group(d)| == |Group(init)| + 4;
      assert (|d| - 1) / 3 == (|init| - 1) / 3 + 1;
    }
  }

  lemma {:induction false} GroupDots(d: string)
    requires AllDigits(d)
    ensures forall i :: 0 <= i < |Group(d)| ==> (Group(d)[i] == '.' <==> (|Group(d)| - i) % 4 == 0)
  {
    var g := Group(d);
    if |d| > 3 {
      var init, tail := d[..|d| - 3], d[|d| - 3..];
      assert AllDigits(init);
      GroupDots(init);
      var gi := Group(init);
      assert g == gi + "." + tail;
      forall i | 0 <= i < |g| ensures g[i] == '.' <==> (|g| - i) % 4 == 0 {
        if i < |gi| {
          assert g[i] == gi[i];
          assert (|g| - i) % 4 == (|gi| - i) % 4;
        } else if i > |gi| {
          assert g[i] == tail[i - |gi| - 1];
          assert IsDigit(tail[i - |gi| - 1]);
        }
      }
    } else {
      forall i | 0 <= i < |g| ensures g[i] != '.' {
        assert IsDigit(g[i]);
      }
    }
  }

  lemma {:induction false} GroupRemove(d: string)
    requires AllDigits(d)
    ensures RemoveAll(Group(d), '.') == d
  {
    if |d| > 3 {
      var init, tail := d[..|d| - 3], d[|d| - 3..];
      var gi := Group(init);
      assert RemoveAll(Group(d), '.') == (RemoveAll(gi, '.') + RemoveAll(".", '.')) + RemoveAll(tail, '.') by {
        assert Group(d) == (gi + ".") + tail;
        RemoveAllAppend(gi + ".", tail, '.');
        RemoveAllAppend(gi, ".", '.');
      }
      assert RemoveAll(gi, '.') == init by {
        assert AllDigits(init);
        GroupRemove(init);
      }
      assert RemoveAll(".", '.') == [] by {
        RemoveOnlyDot();
      }
      assert RemoveAll(tail, '.') == tail by {
        assert AllDigits(tail);
        NoDotInDigits(tail);
      }
      assert (init + []) + tail == d;
    } else {
      NoDotInDigits(d);
    }
  }

  lemma RemoveOnlyDot()
    ensures RemoveAll(".", '.') == []
  {
    assert "."[1..] == [];
  }

  /** A run of digits holds no dot. */
  lemma NoDotInDigits(d: string)
    requires AllDigits(d)
    ensures '.' !in d
  {
    forall k | 0 <= k < |d| ensures d[k] != '.' {
      assert IsDigit(d[k]);
    }
  }


  /**
   * The text is a sign exactly for negative amounts, "$", dot-grouped whole
   * units that read back as |value| / 100, ",", and two decimals that read
   * back as |value| % 100.
   */
  lemma FormatCurrencySpec(value: int)
    ensures var s := FormatCurrency(value);
            var g := Group(Digits(Abs(value) / 100));
            var dec := TwoDigits(Abs(value) % 100);
            s == (if value < 0 then "-" else "") + "$" + g + "," + dec &&
            AllDigits(RemoveAll(g, '.')) && ValueOf(RemoveAll(g, '.')) == Abs(value) / 100 &&
            |dec| == 2 && ValueOf(dec) == Abs(value) % 100
  {
    var units := Digits(Abs(value) / 100);
    GroupSpec(units);
    ValueOfDigits(Abs(value) / 100);
  }

  /** The text starts with a minus sign exactly when the amount is negative. */
  lemma MinusIffNegative(value: int)
    ensures FormatCurrency(value)[0] == '-' <==> value < 0
  {
  }

  /** Only the magnitude is formatted: a negative amount is its positive counterpart behind a minus. */
  lemma NegateFormat(x: int)
    requires x > 0
    ensures FormatCurrency(-x) == "-" + FormatCurrency(x)
  {
    assert Abs(-x) == Abs(x);
  }
}
