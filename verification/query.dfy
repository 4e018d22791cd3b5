/** The two slices of the table the dashboard charts (app.py lines 54-93):
    a point query for one item, region, year and half-year, and a range
    query for one item, several regions and an inclusive span of years; an
    empty slice is shown as a warning instead of a chart (lines 144-146 and
    201-202). */
module Query {
  import opened Wrappers
  import opened Records
  import opened Subsequences
  import opened Sorting
  import opened Normalizer

  /** The radio label of the first half-year; any other label means the
      second half-year. */
  const FirstHalfTerm: string := "6月(上期)"

  /** The month a half-year label stands for. */
  function TermMonth(term: string): (month: int)
    ensures month == 6 || month == 12
    ensures month == 6 <==> term == FirstHalfTerm
  {
    if term == FirstHalfTerm then 6 else 12
  }

  predicate PointMatch(r: Row, item: string, region: string, year: int, month: int) {
    r.item == item && r.region == region && r.year == year && r.month == month
  }

  /** `df_bar`: the rows equal to the selection in all four columns, in table
      order; every such row is kept, as often as it occurs. */
  function FilterPoint(table: seq<Row>, item: string, region: string, year: int, month: int): (r: seq<Row>)
    ensures IsSubsequence(r, table)
    ensures forall i :: 0 <= i < |r| ==>
              r[i].item == item && r[i].region == region && r[i].year == year && r[i].month == month
    ensures forall x :: multiset(r)[x] == if PointMatch(x, item, region, year, month) then multiset(table)[x] else 0
  {
    var keep := (x: Row) => PointMatch(x, item, region, year, month);
    SelectIsSubsequence(table, keep);
    SelectCount(table, keep);
    Select(table, keep)
  }

  predicate RangeMatch(r: Row, item: string, regions: set<string>, yearMin: int, yearMax: int) {
    r.item == item && r.region in regions && yearMin <= r.year <= yearMax
  }

  /** `df_line`: the rows of the item whose region is selected and whose year
      lies in `[yearMin, yearMax]`, both bounds included, in table order;
      every such row is kept, as often as it occurs. */
  function FilterRange(table: seq<Row>, item: string, regions: set<string>, yearMin: int, yearMax: int): (r: seq<Row>)
    ensures IsSubsequence(r, table)
    ensures forall i :: 0 <= i < |r| ==>
              r[i].item == item && r[i].region in regions && yearMin <= r[i].year <= yearMax
    ensures forall x :: multiset(r)[x] == if RangeMatch(x, item, regions, yearMin, yearMax) then multiset(table)[x] else 0
  {
    var keep := (x: Row) => RangeMatch(x, item, regions, yearMin, yearMax);
    SelectIsSubsequence(table, keep);
    SelectCount(table, keep);
    Select(table, keep)
  }

  /** A table holding exactly one row for the selection answers the point
      query with that row alone. */
  lemma PointQueryUnique(table: seq<Row>, k: nat, item: string, region: string, year: int, month: int)
    requires k < |table| && PointMatch(table[k], item, region, year, month)
    requires forall i :: 0 <= i < |table| && i != k ==> !PointMatch(table[i], item, region, year, month)
    ensures FilterPoint(table, item, region, year, month) == [table[k]]
  {
    SelectSingle(table, (x: Row) => PointMatch(x, item, region, year, month), k);
  }

  /** The point query is empty exactly when no row matches the selection. */
  lemma PointQueryEmptyIff(table: seq<Row>, item: string, region: string, year: int, month: int)
    ensures FilterPoint(table, item, region, year, month) == []
        <==> forall i :: 0 <= i < |table| ==> !PointMatch(table[i], item, region, year, month)
  {
    SelectEmptyIff(table, (x: Row) => PointMatch(x, item, region, year, month));
  }

  /** The range query is empty exactly when no row matches the selection. */
  lemma RangeQueryEmptyIff(table: seq<Row>, item: string, regions: set<string>, yearMin: int, yearMax: int)
    ensures FilterRange(table, item, regions, yearMin, yearMax) == []
        <==> forall i :: 0 <= i < |table| ==> !RangeMatch(table[i], item, regions, yearMin, yearMax)
  {
    SelectEmptyIff(table, (x: Row) => RangeMatch(x, item, regions, yearMin, yearMax));
  }

  /** On a sorted table the range query is sorted by `(year, month)` too. */
  lemma RangeQuerySorted(table: seq<Row>, item: string, regions: set<string>, yearMin: int, yearMax: int)
    requires Sorted(table)
    ensures Sorted(FilterRange(table, item, regions, yearMin, yearMax))
  {
    SortedSubsequence(FilterRange(table, item, regions, yearMin, yearMax), table);
  }

  /** The sidebar's choice: a point query (`指数・前年同月比`) or a range
      query (`時間推移`). */
  datatype Selection =
    | Point(item: string, region: string, year: int, term: string)
    | Range(item: string, regions: set<string>, yearMin: int, yearMax: int)

  predicate Matches(sel: Selection, r: Row) {
    match sel
    case Point(item, region, year, term) => PointMatch(r, item, region, year, TermMonth(term))
    case Range(item, regions, yearMin, yearMax) => RangeMatch(r, item, regions, yearMin, yearMax)
  }

  /** The slice the selection asks for: every matching row, as often as it
      occurs, and nothing else, in table order. */
  function Rows(table: seq<Row>, sel: Selection): (r: seq<Row>)
    ensures IsSubsequence(r, table)
    ensures forall i :: 0 <= i < |r| ==> Matches(sel, r[i])
    ensures forall x :: multiset(r)[x] == if Matches(sel, x) then multiset(table)[x] else 0
  {
    match sel
    case Point(item, region, year, term) => FilterPoint(table, item, region, year, TermMonth(term))
    case Range(item, regions, yearMin, yearMax) => FilterRange(table, item, regions, yearMin, yearMax)
  }

  lemma RowsEmptyIff(table: seq<Row>, sel: Selection)
    ensures Rows(table, sel) == [] <==> forall i :: 0 <= i < |table| ==> !Matches(sel, table[i])
  {
    match sel
    case Point(item, region, year, term) =>
      PointQueryEmptyIff(table, item, region, year, TermMonth(term));
    case Range(item, regions, yearMin, yearMax) =>
      RangeQueryEmptyIff(table, item, regions, yearMin, yearMax);
  }

  /** What the chart tab shows: a warning that nothing matched, or a chart of
      the matching rows. */
  datatype View = NoDataWarning | Chart(rows: seq<Row>)

  /** Runs the selected query and decides between warning and chart. It
      never fails: the warning appears exactly when no row matches, and a
      chart holds every matching row, as often as it occurs, and nothing
      else, in table order. */
  function Render(table: seq<Row>, sel: Selection): (v: View)
    ensures v.NoDataWarning? <==> forall i :: 0 <= i < |table| ==> !Matches(sel, table[i])
    ensures v.Chart? ==> |v.rows| > 0 && IsSubsequence(v.rows, table)
    ensures v.Chart? ==> forall i :: 0 <= i < |v.rows| ==> Matches(sel, v.rows[i])
    ensures v.Chart? ==> forall x :: multiset(v.rows)[x] == if Matches(sel, x) then multiset(table)[x] else 0
  {
    var rows := Rows(table, sel);
    RowsEmptyIff(table, sel);
    if |rows| == 0 then NoDataWarning else Chart(rows)
  }

  /** End to end: after a successful load, a time-series chart is ordered
      by `(year, month)`. */
  lemma RangeChartSorted(raws: seq<RawRow>, parse: NumParser,
                         item: string, regions: set<string>, yearMin: int, yearMax: int)
    requires forall i :: 0 <= i < |raws| ==> Parsable(raws[i])
    ensures NormalizeTable(raws, parse).Success?
    ensures var view := Render(NormalizeTable(raws, parse).value, Range(item, regions, yearMin, yearMax));
            view.Chart? ==> Sorted(view.rows)
  {
    RangeQuerySorted(NormalizeTable(raws, parse).value, item, regions, yearMin, yearMax);
  }
}
