/** The stable ascending sort of the table by `(year, month)`
    (`df.sort_values(["年", "月"])`; with more than one key pandas sorts
    lexicographically with a stable sort). */
module Sorting {
  import opened Records
  import opened Subsequences

  /** Inserts `x` into `t` right after the last row whose key is not greater
      than that of `x`. */
  function InsertByKey(t: seq<Row>, x: Row): (r: seq<Row>)
    ensures multiset(r) == multiset(t) + multiset{x}
    ensures Sorted(t) ==> Sorted(r)
  {
    if |t| == 0 then [x]
    else
      var init := t[..|t| - 1];
      var last := t[|t| - 1];
      assert t == init + [last];
      if KeyLe(last, x) then
        SortedSnoc(t, x);
        t + [x]
      else
        var r' := InsertByKey(init, x);
        InsertStepSorted(t, x, r');
        r' + [last]
  }

  /** Appending a row whose key bounds all others keeps a sequence sorted. */
  lemma SortedSnoc(u: seq<Row>, y: Row)
    requires Sorted(u) && |u| > 0 ==> KeyLe(u[|u| - 1], y)
    ensures Sorted(u) ==> Sorted(u + [y])
  {
    if |u| > 0 && Sorted(u) {
      assert forall i :: 0 <= i < |u| ==> KeyLe(u[i], u[|u| - 1]);
    }
  }

  /** The recursive case of `InsertByKey`: every row of the partial result
      is bounded by the last row of the sorted input, which may follow them. */
  lemma InsertStepSorted(t: seq<Row>, x: Row, r': seq<Row>)
    requires |t| > 0 && !KeyLe(t[|t| - 1], x)
    requires multiset(r') == multiset(t[..|t| - 1]) + multiset{x}
    requires Sorted(t[..|t| - 1]) ==> Sorted(r')
    ensures Sorted(t) ==> Sorted(r' + [t[|t| - 1]])
  {
    var init := t[..|t| - 1];
    if Sorted(t) {
      assert Sorted(init);
      forall i | 0 <= i < |r'|
        ensures KeyLe(r'[i], t[|t| - 1])
      {
        assert r'[i] in multiset(r');
        if r'[i] != x {
          assert r'[i] in multiset(init);
          var j :| 0 <= j < |init| && init[j] == r'[i];
          assert t[j] == init[j];
        }
      }
      assert |r'| > 0;
      SortedSnoc(r', t[|t| - 1]);
    }
  }

  /** Stable sort by `(year, month)`: the result is a permutation of the input
      and non-decreasing in the key (`SortStable` adds that rows with equal
      keys keep their input order). */
  function SortByYearMonth(s: seq<Row>): (r: seq<Row>)
    ensures Sorted(r)
    ensures multiset(r) == multiset(s)
  {
    if |s| == 0 then []
    else
      assert s == s[..|s| - 1] + [s[|s| - 1]];
      InsertByKey(SortByYearMonth(s[..|s| - 1]), s[|s| - 1])
  }

  /** Inserting `x` places it after every row with the same key. */
  lemma {:induction false} InsertStable(t: seq<Row>, x: Row, year: int, month: int)
    ensures Select(InsertByKey(t, x), KeyIs(year, month))
         == Select(t, KeyIs(year, month)) + (if KeyIs(year, month)(x) then [x] else [])
  {
    if |t| == 0 {
      assert [x] == [] + [x];
      SelectSnoc([], x, KeyIs(year, month));
    } else if KeyLe(t[|t| - 1], x) {
      SelectSnoc(t, x, KeyIs(year, month));
    } else {
      InsertStable(t[..|t| - 1], x, year, month);
      InsertStableStep(t, x, KeyIs(year, month));
    }
  }

  /** The recursive case of `InsertStable`: `x` moves in front of a last row
      with a strictly greater key, which cannot share the selected key. */
  lemma InsertStableStep(t: seq<Row>, x: Row, keep: Row -> bool)
    requires |t| > 0 && !KeyLe(t[|t| - 1], x)
    requires keep(x) ==> !keep(t[|t| - 1])
    requires Select(InsertByKey(t[..|t| - 1], x), keep)
          == Select(t[..|t| - 1], keep) + (if keep(x) then [x] else [])
    ensures Select(InsertByKey(t, x), keep) == Select(t, keep) + (if keep(x) then [x] else [])
  {
    InsertByKeyStep(t, x);
    SelectSnoc(InsertByKey(t[..|t| - 1], x), t[|t| - 1], keep);
  }

  /** One step of `InsertByKey` past a last row with a greater key. */
  lemma InsertByKeyStep(t: seq<Row>, x: Row)
    requires |t| > 0 && !KeyLe(t[|t| - 1], x)
    ensures InsertByKey(t, x) == InsertByKey(t[..|t| - 1], x) + [t[|t| - 1]]
  {
  }

  /** Stability: for every key, the rows with that key appear in the sorted
      table in the same order as in the input. */
  lemma {:induction false} SortStable(s: seq<Row>, year: int, month: int)
    ensures Select(SortByYearMonth(s), KeyIs(year, month)) == Select(s, KeyIs(year, month))
  {
    if |s| > 0 {
      var init := s[..|s| - 1];
      var last := s[|s| - 1];
      SortStable(init, year, month);
      InsertStable(SortByYearMonth(init), last, year, month);
    }
  }

  /** An order-preserving subsequence of a sorted table is sorted. */
  lemma {:induction false} SortedSubsequence(a: seq<Row>, b: seq<Row>)
    requires IsSubsequence(a, b) && Sorted(b)
    ensures Sorted(a)
  {
    if |a| > 0 {
      var a', b' := a[..|a| - 1], b[..|b| - 1];
      assert Sorted(b');
      if a[|a| - 1] == b[|b| - 1] && IsSubsequence(a', b') {
        SortedSubsequence(a', b');
        SubsequenceMembers(a', b');
        forall i | 0 <= i < |a'|
          ensures KeyLe(a'[i], a[|a| - 1])
        {
          var j :| 0 <= j < |b'| && b'[j] == a'[i];
          assert b[j] == b'[j];
        }
        SortedSnoc(a', a[|a| - 1]);
        assert a == a' + [a[|a| - 1]];
      } else {
        SortedSubsequence(a, b');
      }
    }
  }
}
