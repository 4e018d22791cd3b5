/** Order-preserving selection from a sequence: the shape of a pandas boolean
    mask `df[mask]`, which keeps the masked rows in table order. */
module Subsequences {

  /** `a` can be obtained from `b` by deleting elements, keeping order. */
  predicate IsSubsequence<T(==, !new)>(a: seq<T>, b: seq<T>) {
    || |a| == 0
    || (&& |b| > 0
        && (|| (a[|a| - 1] == b[|b| - 1] && IsSubsequence(a[..|a| - 1], b[..|b| - 1]))
            || IsSubsequence(a, b[..|b| - 1])))
  }

  /** The elements of `s` satisfying `keep`, in their order in `s`
      (`SelectCount` and `SelectIsSubsequence` say which elements, how often,
      and in what order). */
  function Select<T(==, !new)>(s: seq<T>, keep: T -> bool): (r: seq<T>)
    ensures forall i :: 0 <= i < |r| ==> keep(r[i])
  {
    if |s| == 0 then []
    else
      var prev := Select(s[..|s| - 1], keep);
      if keep(s[|s| - 1]) then prev + [s[|s| - 1]] else prev
  }

  /** Each value satisfying `keep` occurs in the selection exactly as often
      as in `s`; no other value occurs in it. */
  lemma {:induction false} SelectCount<T(!new)>(s: seq<T>, keep: T -> bool)
    ensures forall x :: multiset(Select(s, keep))[x] == if keep(x) then multiset(s)[x] else 0
  {
    if |s| > 0 {
      var init := s[..|s| - 1];
      var last := s[|s| - 1];
      assert s == init + [last];
      assert multiset(s) == multiset(init) + multiset{last};
      SelectCount(init, keep);
      if keep(last) {
        assert multiset(Select(s, keep)) == multiset(Select(init, keep)) + multiset{last};
      }
    }
  }

  /** The selection is an order-preserving subsequence of its source. */
  lemma {:induction false} SelectIsSubsequence<T(!new)>(s: seq<T>, keep: T -> bool)
    ensures IsSubsequence(Select(s, keep), s)
  {
    if |s| > 0 {
      var init := s[..|s| - 1];
      var last := s[|s| - 1];
      var r := Select(s, keep);
      SelectIsSubsequence(init, keep);
      if keep(last) {
        assert r[..|r| - 1] == Select(init, keep) && r[|r| - 1] == last;
      }
    }
  }

  /** Selecting after appending one element. */
  lemma SelectSnoc<T(!new)>(s: seq<T>, x: T, keep: T -> bool)
    ensures Select(s + [x], keep) == Select(s, keep) + (if keep(x) then [x] else [])
  {
    assert (s + [x])[..|s|] == s;
  }

  /** Selecting from a concatenation selects from each part. */
  lemma {:induction false} SelectAppend<T(!new)>(a: seq<T>, b: seq<T>, keep: T -> bool)
    ensures Select(a + b, keep) == Select(a, keep) + Select(b, keep)
  {
    if |b| == 0 {
      assert a + b == a;
    } else {
      var b' := b[..|b| - 1];
      var last := b[|b| - 1];
      assert b == b' + [last];
      assert a + b == (a + b') + [last];
      SelectSnoc(a + b', last, keep);
      SelectSnoc(b', last, keep);
      SelectAppend(a, b', keep);
    }
  }

  /** The selection is empty exactly when no element satisfies `keep`. */
  lemma SelectEmptyIff<T(!new)>(s: seq<T>, keep: T -> bool)
    ensures Select(s, keep) == [] <==> forall i :: 0 <= i < |s| ==> !keep(s[i])
  {
    var r := Select(s, keep);
    SelectCount(s, keep);
    if r == [] {
      forall i | 0 <= i < |s|
        ensures !keep(s[i])
      {
        assert s[i] in multiset(s);
        assert multiset(r)[s[i]] == 0;
      }
    } else {
      assert r[0] in multiset(r);
      assert r[0] in multiset(s);
    }
  }

  /** If exactly one position of `s` satisfies `keep`, the selection is that
      one element. */
  lemma {:induction false} SelectSingle<T(!new)>(s: seq<T>, keep: T -> bool, k: nat)
    requires k < |s| && keep(s[k])
    requires forall i :: 0 <= i < |s| && i != k ==> !keep(s[i])
    ensures Select(s, keep) == [s[k]]
  {
    var init := s[..|s| - 1];
    if k == |s| - 1 {
      assert Select(init, keep) == [] by {
        SelectEmptyIff(init, keep);
      }
    } else {
      SelectSingle(init, keep, k);
    }
  }

  /** Every element of a subsequence occurs in the sequence. */
  lemma {:induction false} SubsequenceMembers<T(!new)>(a: seq<T>, b: seq<T>)
    requires IsSubsequence(a, b)
    ensures forall i :: 0 <= i < |a| ==> a[i] in b
  {
    if |a| > 0 {
      var b' := b[..|b| - 1];
      if a[|a| - 1] == b[|b| - 1] && IsSubsequence(a[..|a| - 1], b') {
        SubsequenceMembers(a[..|a| - 1], b');
        forall i | 0 <= i < |a|
          ensures a[i] in b
        {
          if i < |a| - 1 {
            assert a[i] == a[..|a| - 1][i];
            assert a[i] in b';
          }
        }
      } else {
        SubsequenceMembers(a, b');
      }
    }
  }
}
