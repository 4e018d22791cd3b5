/** The preprocessing pass of app.py lines 22-36: every CSV row becomes a
    typed row, and the table is sorted by `(year, month)`. */
module Normalizer {
  import opened Wrappers
  import opened Records
  import opened Text
  import opened Cleaning
  import opened Labels
  import opened Sorting
  import opened Subsequences

  /** Why the whole load fails: `astype(int)` raises on the first column
      (year before month) holding a row whose label did not match. The
      exception names no row, so neither does the error. */
  datatype NormalizeError = YearNotFound | MonthNotFound

  /** `(\d{4})` matches somewhere in the label. */
  predicate HasYear(period: string) {
    exists i :: 0 <= i < |period| && YearAt(period, i)
  }

  /** `(\d{1,2})月` matches somewhere in the label. */
  predicate HasMonth(period: string) {
    exists i, n :: 0 <= i < |period| && 1 <= n <= 2 && MonthAt(period, i, n)
  }

  /** The label yields both a year and a month. */
  predicate Parsable(raw: RawRow) {
    HasYear(raw.period) && HasMonth(raw.period)
  }

  /** `row` is what preprocessing makes of the CSV row `raw`: trimmed region,
      item without its code, the label kept with its year and month, and the
      two numeric cells coerced. */
  predicate RowOf(row: Row, raw: RawRow, parse: NumParser) {
    && row.region == Trim(raw.region)
    && row.item == NormalizeItem(raw.item)
    && row.period == raw.period
    && ExtractYear(raw.period) == Some(row.year)
    && ExtractMonth(raw.period) == Some(row.month)
    && row.index == parse(raw.index)
    && row.yoy == parse(raw.yoy)
  }

  /** The typed row for one CSV row: each column as its own pipeline step
      defines it. */
  function MakeRow(raw: RawRow, parse: NumParser): (row: Row)
    requires Parsable(raw)
    ensures RowOf(row, raw, parse)
  {
    Row(
      region := NormalizeRegion(raw.region),
      item := NormalizeItem(raw.item),
      period := raw.period,
      year := ExtractYear(raw.period).value,
      month := ExtractMonth(raw.period).value,
      index := parse(raw.index),
      yoy := parse(raw.yoy))
  }

  /** The typed rows in input order, before sorting. */
  function MakeRows(raws: seq<RawRow>, parse: NumParser): (rows: seq<Row>)
    requires forall i :: 0 <= i < |raws| ==> Parsable(raws[i])
    ensures |rows| == |raws|
    ensures forall i :: 0 <= i < |raws| ==> RowOf(rows[i], raws[i], parse)
  {
    seq(|raws|, i requires 0 <= i < |raws| => MakeRow(raws[i], parse))
  }

  /** The whole preprocessing pass. It fails exactly when some label has no
      year or no month, and a missing year is reported before a missing
      month; otherwise it keeps every row, turns unreadable numbers into
      `None` rather than dropping the row, and sorts by `(year, month)`. */
  function NormalizeTable(raws: seq<RawRow>, parse: NumParser): (r: Result<seq<Row>, NormalizeError>)
    ensures r.Success? <==> forall i :: 0 <= i < |raws| ==> Parsable(raws[i])
    ensures r.Failure? ==> (r.error.YearNotFound? <==> exists i :: 0 <= i < |raws| && !HasYear(raws[i].period))
    ensures r.Success? ==> |r.value| == |raws| && Sorted(r.value)
    ensures r.Success? ==> multiset(r.value) == multiset(MakeRows(raws, parse))
  {
    if exists i | 0 <= i < |raws| :: !HasYear(raws[i].period) then Failure(YearNotFound)
    else if exists i | 0 <= i < |raws| :: !HasMonth(raws[i].period) then Failure(MonthNotFound)
    else
      var rows := SortByYearMonth(MakeRows(raws, parse));
      assert |rows| == |multiset(rows)|;
      Success(rows)
  }

  /** Some row of `table` is what preprocessing makes of `raw`. */
  predicate Represented(table: seq<Row>, raw: RawRow, parse: NumParser) {
    exists j :: 0 <= j < |table| && RowOf(table[j], raw, parse)
  }

  /** No row is lost: when every label has a year and a month, every CSV
      row, whatever its numeric cells hold, appears in the table with its
      label and with the coerced index and year-over-year values (`None`
      where the text is not a number). */
  lemma NormalizeKeepsEveryRow(raws: seq<RawRow>, parse: NumParser)
    requires forall i :: 0 <= i < |raws| ==> Parsable(raws[i])
    ensures NormalizeTable(raws, parse).Success?
    ensures var table := NormalizeTable(raws, parse).value;
            forall i :: 0 <= i < |raws| ==> Represented(table, raws[i], parse)
  {
    NormalizeSorts(raws, parse);
    var rows := MakeRows(raws, parse);
    PermutationKeepsRows(raws, parse, rows, SortByYearMonth(rows));
  }

  /** A permutation of the typed rows still holds a row for every CSV row. */
  lemma PermutationKeepsRows(raws: seq<RawRow>, parse: NumParser, rows: seq<Row>, table: seq<Row>)
    requires |rows| == |raws| && forall i :: 0 <= i < |raws| ==> RowOf(rows[i], raws[i], parse)
    requires multiset(table) == multiset(rows)
    ensures forall i :: 0 <= i < |raws| ==> Represented(table, raws[i], parse)
  {
    forall i | 0 <= i < |raws|
      ensures Represented(table, raws[i], parse)
    {
      assert rows[i] in multiset(rows);
      assert rows[i] in table;
      var j :| 0 <= j < |table| && table[j] == rows[i];
      assert RowOf(table[j], raws[i], parse);
    }
  }

  /** A load in which every label parses yields the typed rows, sorted. */
  lemma NormalizeSorts(raws: seq<RawRow>, parse: NumParser)
    requires forall i :: 0 <= i < |raws| ==> Parsable(raws[i])
    ensures NormalizeTable(raws, parse) == Success(SortByYearMonth(MakeRows(raws, parse)))
  {
  }

  /** Rows that share a year and month stay in CSV order. */
  lemma NormalizeStable(raws: seq<RawRow>, parse: NumParser, year: int, month: int)
    requires forall i :: 0 <= i < |raws| ==> Parsable(raws[i])
    ensures NormalizeTable(raws, parse).Success?
    ensures Select(NormalizeTable(raws, parse).value, KeyIs(year, month))
         == Select(MakeRows(raws, parse), KeyIs(year, month))
  {
    NormalizeSorts(raws, parse);
    SortStable(MakeRows(raws, parse), year, month);
  }
}
