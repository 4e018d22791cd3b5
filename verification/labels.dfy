/** The year (`年`) and month (`月`) read from the period label
    (`時間軸（年・月）`, for example `2020年6月`), app.py lines 29-30. */
module Labels {
  import opened Wrappers
  import opened Text

  const YearMarker: char := '年'
  const MonthMarker: char := '月'

  /** Four digits start at position `i` of `s`: a match of `(\d{4})`. */
  predicate YearAt(s: string, i: int) {
    0 <= i && i + 4 <= |s| && AllDigits(s[i..i + 4])
  }

  /** The leftmost position at or after `from` where four digits start. */
  function FindYear(s: string, from: nat): (r: Option<nat>)
    ensures r.Some? ==> from <= r.value && YearAt(s, r.value)
    ensures r.Some? ==> forall j :: from <= j < r.value ==> !YearAt(s, j)
    ensures r.None? ==> forall j :: from <= j ==> !YearAt(s, j)
    decreases |s| - from
  {
    if from + 4 > |s| then None
    else if YearAt(s, from) then Some(from)
    else FindYear(s, from + 1)
  }

  /** `str.extract(r"(\d{4})").astype(int)`: the value of the first run of
      four digits in the period; `None` where `extract` yields NaN, which
      `astype(int)` refuses. */
  function ExtractYear(period: string): (r: Option<int>)
    ensures r.Some? <==> exists i :: YearAt(period, i)
    ensures forall i :: YearAt(period, i) && (forall j :: 0 <= j < i ==> !YearAt(period, j))
                        ==> r == Some(DigitsValue(period[i..i + 4]))
    ensures r.Some? ==> 0 <= r.value < 10000
  {
    match FindYear(period, 0)
    case None => None
    case Some(i) =>
      assert Pow10(4) == 10000;
      Some(DigitsValue(period[i..i + 4]))
  }

  /** `n` (one or two) digits start at position `i` of `s` and are directly
      followed by `月`: a match of `(\d{1,2})月` whose group has length `n`. */
  predicate MonthAt(s: string, i: int, n: int) {
    (n == 1 || n == 2) && 0 <= i && i + n < |s| && AllDigits(s[i..i + n]) && s[i + n] == MonthMarker
  }

  /** The group length of a match of `(\d{1,2})月` at position `i`, or 0 when
      there is none. At most one length can match, since `月` is not a digit. */
  function MonthMatchAt(s: string, i: nat): (n: nat)
    ensures n == 0 <==> !MonthAt(s, i, 1) && !MonthAt(s, i, 2)
    ensures n != 0 ==> MonthAt(s, i, n)
  {
    if i + 2 < |s| && IsDigit(s[i]) && IsDigit(s[i + 1]) && s[i + 2] == MonthMarker then 2
    else if i + 1 < |s| && IsDigit(s[i]) && s[i + 1] == MonthMarker then 1
    else 0
  }

  /** The leftmost position at or after `from` where `(\d{1,2})月` matches. */
  function FindMonth(s: string, from: nat): (r: Option<nat>)
    ensures r.Some? ==> from <= r.value && MonthMatchAt(s, r.value) != 0
    ensures r.Some? ==> forall j, n :: from <= j < r.value ==> !MonthAt(s, j, n)
    ensures r.None? ==> forall j, n :: from <= j ==> !MonthAt(s, j, n)
    decreases |s| - from
  {
    if from >= |s| then None
    else if MonthMatchAt(s, from) != 0 then Some(from)
    else FindMonth(s, from + 1)
  }

  /** `str.extract(r"(\d{1,2})月").astype(int)`: the value of the one or two
      digits of the leftmost match; `None` where there is no match. */
  function ExtractMonth(period: string): (r: Option<int>)
    ensures r.Some? <==> exists i, n :: MonthAt(period, i, n)
    ensures forall i, n :: MonthAt(period, i, n) && (forall j, m :: 0 <= j < i ==> !MonthAt(period, j, m))
                           ==> r == Some(DigitsValue(period[i..i + n]))
    ensures r.Some? ==> 0 <= r.value < 100
  {
    match FindMonth(period, 0)
    case None => None
    case Some(i) =>
      var n := MonthMatchAt(period, i);
      assert Pow10(2) == 100;
      assert DigitsValue(period[i..i + n]) < Pow10(n);
      Some(DigitsValue(period[i..i + n]))
  }

  /** The e-Stat period label for a four-digit year and a month below 100,
      such as `2020年6月` or `2020年12月`. */
  function FormatLabel(year: nat, month: nat): string
    requires 1000 <= year <= 9999 && month < 100
  {
    Decimal(year) + [YearMarker] + Decimal(month) + [MonthMarker]
  }

  lemma DecimalLengths(year: nat, month: nat)
    requires 1000 <= year <= 9999 && month < 100
    ensures |Decimal(year)| == 4
    ensures 1 <= |Decimal(month)| <= 2
  {
    assert |Decimal(year / 10 / 10 / 10)| == 1;
    assert |Decimal(year / 10 / 10)| == 2;
    assert |Decimal(year / 10)| == 3;
    if month >= 10 {
      assert |Decimal(month / 10)| == 1;
    }
  }

  /** Reading a formatted period gives back its year and month. */
  lemma LabelRoundTrip(year: nat, month: nat)
    requires 1000 <= year <= 9999 && month < 100
    ensures ExtractYear(FormatLabel(year, month)) == Some(year)
    ensures ExtractMonth(FormatLabel(year, month)) == Some(month)
  {
    var s := FormatLabel(year, month);
    var ys, ms := Decimal(year), Decimal(month);
    DecimalLengths(year, month);
    assert s[..4] == ys;
    assert s[4] == YearMarker;
    assert s[5..5 + |ms|] == ms;
    assert s[5 + |ms|] == MonthMarker;
    // the year: four digits right at the start
    assert YearAt(s, 0);
    assert s[0..4] == ys;
    // the month: nothing matches before position 5, which holds the month
    assert MonthAt(s, 5, |ms|);
    assert forall j, n :: 0 <= j < 5 ==> !MonthAt(s, j, n);
  }

  /** `2020年6月` has year 2020 and month 6.
      The literals arrive through `requires` for solver stability: stated
      inline, the solver unfolds the string functions on them at length. */
  lemma LabelExampleFirstHalf(period: string)
    requires period == "2020" + [YearMarker] + "6" + [MonthMarker]
    ensures ExtractYear(period) == Some(2020) && ExtractMonth(period) == Some(6)
  {
    assert Decimal(2020) == "2020" by {
      assert Decimal(2) == "2";
      assert Decimal(20) == "20";
      assert Decimal(202) == "202";
    }
    assert Decimal(6) == "6";
    LabelRoundTrip(2020, 6);
  }

  /** `2020年12月` has year 2020 and month 12.
      The literals arrive through `requires` for solver stability: stated
      inline, the solver unfolds the string functions on them at length. */
  lemma LabelExampleSecondHalf(period: string)
    requires period == "2020" + [YearMarker] + "12" + [MonthMarker]
    ensures ExtractYear(period) == Some(2020) && ExtractMonth(period) == Some(12)
  {
    assert Decimal(2020) == "2020" by {
      assert Decimal(2) == "2";
      assert Decimal(20) == "20";
      assert Decimal(202) == "202";
    }
    assert Decimal(12) == "12" by {
      assert Decimal(1) == "1";
    }
    LabelRoundTrip(2020, 12);
  }

  /** The error case of the year column, stated on its own: a label with no
      four digits in a row has no year, so the load fails. */
  lemma NoYearWithoutFourDigits(period: string)
    requires forall i :: !YearAt(period, i)
    ensures ExtractYear(period).None?
  {
  }

  /** The error case of the month column, stated on its own: a label
      without `月` has no month, so the load fails. */
  lemma NoMonthWithoutMarker(period: string)
    requires MonthMarker !in period
    ensures ExtractMonth(period).None?
  {
  }
}
