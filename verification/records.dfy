/** The two record shapes of the table: a row as read from the CSV file and
    the typed row the normaliser produces, plus the `(year, month)` order the
    table is kept in. */
module Records {
  import opened Wrappers

  /** A parsed numeric cell. How `pd.to_numeric` reads text into a float is
      outside the model, so the number itself is left abstract. */
  type Num(==, !new)

  /** Numeric coercion with `errors="coerce"`: a number, or `None` for a
      cell it cannot read. */
  type NumParser = string -> Option<Num>

  /** One CSV row, restricted to the columns the pipeline reads:
      `地域（2020年基準）`, `2020年基準品目`, `時間軸（年・月）`, `指数` and
      `前年同月比【%】`. */
  datatype RawRow = RawRow(
    region: string,
    item: string,
    period: string,
    index: string,
    yoy: string)

  /** One normalised row: trimmed region (`地域名`), code-stripped item
      (`品目名`), the period label kept verbatim, the year (`年`) and month
      (`月`) read from it, and the coerced index and year-over-year values. */
  datatype Row = Row(
    region: string,
    item: string,
    period: string,
    year: int,
    month: int,
    index: Option<Num>,
    yoy: Option<Num>)

  /** Lexicographic `(year, month)` order, ascending. */
  predicate KeyLe(a: Row, b: Row) {
    a.year < b.year || (a.year == b.year && a.month <= b.month)
  }

  /** The two rows have the same sort key. */
  predicate SameKey(a: Row, b: Row) {
    a.year == b.year && a.month == b.month
  }

  /** Non-decreasing in `(year, month)`. */
  predicate Sorted(s: seq<Row>) {
    forall i, j :: 0 <= i < j < |s| ==> KeyLe(s[i], s[j])
  }

  /** The rows whose sort key is `(year, month)`. */
  function KeyIs(year: int, month: int): Row -> bool {
    (r: Row) => r.year == year && r.month == month
  }
}
