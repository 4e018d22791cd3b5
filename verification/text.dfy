/** Character classes and string primitives the normaliser is built from:
    Python's notion of whitespace and decimal digits, `str.strip`, maximal
    leading runs and the decimal value of a digit string. */
module Text {

  /** The characters for which Python's `str.isspace` holds; for a `str`
      pattern the regex class `\s` matches exactly the same characters. */
  predicate IsSpace(c: char) {
    || ('\t' <= c <= '\r')
    || ('\U{1C}' <= c <= '\U{1F}')
    || c == ' '
    || c == '\U{85}'
    || c == '\U{A0}'
    || c == '\U{1680}'
    || ('\U{2000}' <= c <= '\U{200A}')
    || c == '\U{2028}'
    || c == '\U{2029}'
    || c == '\U{202F}'
    || c == '\U{205F}'
    || c == '\U{3000}'
  }

  /** The decimal digits the model recognises for `\d`: ASCII and fullwidth. */
  predicate IsDigit(c: char) {
    ('0' <= c <= '9') || ('０' <= c <= '９')
  }

  /** The value of one decimal digit, as Python's `int` reads it. */
  function DigitValue(c: char): (v: nat)
    requires IsDigit(c)
    ensures v < 10
  {
    if c <= '9' then c as int - '0' as int else c as int - '０' as int
  }

  predicate AllSpace(s: seq<char>) {
    forall i :: 0 <= i < |s| ==> IsSpace(s[i])
  }

  predicate AllDigits(s: seq<char>) {
    forall i :: 0 <= i < |s| ==> IsDigit(s[i])
  }

  /** Neither end of `s` is whitespace: what `str.strip` guarantees of its result. */
  predicate IsTrimmed(s: seq<char>) {
    |s| == 0 || (!IsSpace(s[0]) && !IsSpace(s[|s| - 1]))
  }

  /** Drops the maximal whitespace prefix: the result is a suffix of `s`
      that does not start with whitespace (`TrimStartCut` adds that what is
      dropped is whitespace). */
  function TrimStart(s: seq<char>): (r: seq<char>)
    ensures |r| <= |s| && r == s[|s| - |r|..]
    ensures |r| == 0 || !IsSpace(r[0])
  {
    if |s| > 0 && IsSpace(s[0]) then TrimStart(s[1..]) else s
  }

  /** `TrimStart` drops whitespace only. */
  lemma {:induction false} TrimStartCut(s: seq<char>)
    ensures AllSpace(s[..|s| - |TrimStart(s)|])
  {
    if |s| > 0 && IsSpace(s[0]) {
      TrimStartCut(s[1..]);
      var k := |s| - |TrimStart(s)|;
      assert forall i :: 1 <= i < k ==> s[i] == s[1..][..k - 1][i - 1];
    }
  }

  /** Drops the maximal whitespace suffix: the result is a prefix of `s`
      that does not end with whitespace (`TrimEndCut` adds that what is
      dropped is whitespace). */
  function TrimEnd(s: seq<char>): (r: seq<char>)
    ensures |r| <= |s| && r == s[..|r|]
    ensures |r| == 0 || !IsSpace(r[|r| - 1])
  {
    if |s| > 0 && IsSpace(s[|s| - 1]) then TrimEnd(s[..|s| - 1]) else s
  }

  /** `TrimEnd` drops whitespace only. */
  lemma {:induction false} TrimEndCut(s: seq<char>)
    ensures AllSpace(s[|TrimEnd(s)|..])
  {
    if |s| > 0 && IsSpace(s[|s| - 1]) {
      TrimEndCut(s[..|s| - 1]);
      var k := |TrimEnd(s)|;
      assert forall i :: k <= i < |s| - 1 ==> s[i] == s[..|s| - 1][k..][i - k];
    }
  }

  /** Python's `str.strip()` with no argument: the result has no whitespace
      at either end (`TrimIsSlice` adds that it is a slice of `s` and that
      everything cut off is whitespace). */
  function Trim(s: seq<char>): (r: seq<char>)
    ensures IsTrimmed(r)
  {
    TrimEndKeepsStart(TrimStart(s));
    TrimEnd(TrimStart(s))
  }

  /** Stripping the end of a string that does not start with whitespace
      leaves a string with whitespace at neither end. */
  lemma TrimEndKeepsStart(t: seq<char>)
    requires |t| == 0 || !IsSpace(t[0])
    ensures IsTrimmed(TrimEnd(t))
  {
    var r := TrimEnd(t);
    assert |r| > 0 ==> r[0] == t[0];
  }

  /** What `Trim` keeps is a slice of its input surrounded by whitespace. */
  lemma TrimIsSlice(s: seq<char>)
    ensures exists a :: SurroundedBySpace(s, Trim(s), a)
  {
    var t := TrimStart(s);
    var r := TrimEnd(t);
    TrimStartCut(s);
    TrimEndCut(t);
    assert r == Trim(s);
    var a := |s| - |t|;
    assert t == s[a..];
    assert r == t[..|r|];
    assert s[a + |r|..] == t[|r|..];
    assert |r| > 0 ==> r[0] == t[0];
    assert SurroundedBySpace(s, r, a);
  }

  /** `r` sits at offset `a` of `s`, and everything around it is whitespace. */
  predicate SurroundedBySpace(s: seq<char>, r: seq<char>, a: int) {
    && 0 <= a <= |s| - |r|
    && r == s[a..a + |r|]
    && AllSpace(s[..a])
    && AllSpace(s[a + |r|..])
  }

  /** Removing whitespace in front of a string that starts with a
      non-whitespace character (or is empty) gives that string back. */
  lemma {:induction false} TrimStartOfSpaces(w: seq<char>, u: seq<char>)
    requires AllSpace(w)
    requires |u| == 0 || !IsSpace(u[0])
    ensures TrimStart(w + u) == u
  {
    if |w| > 0 {
      assert (w + u)[1..] == w[1..] + u;
      TrimStartOfSpaces(w[1..], u);
    } else {
      assert w + u == u;
    }
  }

  /** Removing whitespace after a string that ends in a non-whitespace
      character (or is empty) gives that string back. */
  lemma {:induction false} TrimEndOfSpaces(u: seq<char>, w: seq<char>)
    requires AllSpace(w)
    requires |u| == 0 || !IsSpace(u[|u| - 1])
    ensures TrimEnd(u + w) == u
  {
    if |w| > 0 {
      assert (u + w)[..|u + w| - 1] == u + w[..|w| - 1];
      TrimEndOfSpaces(u, w[..|w| - 1]);
    } else {
      assert u + w == u;
    }
  }

  /** `Trim` removes exactly the surrounding whitespace: a trimmed core
      between two whitespace runs is recovered unchanged. */
  lemma TrimExact(w1: seq<char>, t: seq<char>, w2: seq<char>)
    requires AllSpace(w1) && AllSpace(w2) && IsTrimmed(t)
    ensures Trim(w1 + t + w2) == t
  {
    if |t| == 0 {
      assert w1 + t + w2 == (w1 + w2) + [];
      TrimStartOfSpaces(w1 + w2, []);
    } else {
      assert w1 + t + w2 == w1 + (t + w2);
      TrimStartOfSpaces(w1, t + w2);
      TrimEndOfSpaces(t, w2);
    }
  }

  /** A string with no whitespace at either end is a fixed point of `Trim`. */
  lemma TrimOfTrimmed(t: seq<char>)
    requires IsTrimmed(t)
    ensures Trim(t) == t
  {
    assert [] + t + [] == t;
    TrimExact([], t, []);
  }

  /** `Trim` is idempotent. */
  lemma TrimIdempotent(s: seq<char>)
    ensures Trim(Trim(s)) == Trim(s)
  {
    TrimOfTrimmed(Trim(s));
  }

  /** Length of the maximal prefix of `s` whose characters satisfy `p`. */
  function LeadingRun(s: seq<char>, p: char -> bool): (n: nat)
    ensures n <= |s|
    ensures forall i :: 0 <= i < n ==> p(s[i])
    ensures n == |s| || !p(s[n])
  {
    if |s| > 0 && p(s[0]) then 1 + LeadingRun(s[1..], p) else 0
  }

  /** The maximal run of a prefix satisfying `p` ends where the first
      character outside `p` starts. */
  lemma {:induction false} LeadingRunAppend(u: seq<char>, v: seq<char>, p: char -> bool)
    requires forall i :: 0 <= i < |u| ==> p(u[i])
    requires |v| == 0 || !p(v[0])
    ensures LeadingRun(u + v, p) == |u|
  {
    if |u| > 0 {
      assert (u + v)[1..] == u[1..] + v;
      LeadingRunAppend(u[1..], v, p);
    } else {
      assert u + v == v;
    }
  }

  function Pow10(n: nat): (r: nat)
    ensures r >= 1
  {
    if n == 0 then 1 else 10 * Pow10(n - 1)
  }

  /** The value Python's `int` gives a string of decimal digits. */
  function DigitsValue(ds: seq<char>): (v: nat)
    requires AllDigits(ds)
    ensures v < Pow10(|ds|)
  {
    if |ds| == 0 then 0
    else DigitsValue(ds[..|ds| - 1]) * 10 + DigitValue(ds[|ds| - 1])
  }

  function DigitChar(d: nat): (c: char)
    requires d < 10
    ensures IsDigit(c) && DigitValue(c) == d
  {
    ('0' as int + d) as char
  }

  /** The ASCII decimal spelling of `n`, without leading zeros. */
  function Decimal(n: nat): (ds: seq<char>)
    ensures |ds| >= 1 && AllDigits(ds)
    ensures DigitsValue(ds) == n
    ensures n < 10 ==> |ds| == 1
    ensures n >= 10 ==> |ds| == |Decimal(n / 10)| + 1
  {
    if n < 10 then [DigitChar(n)]
    else
      var ds := Decimal(n / 10) + [DigitChar(n % 10)];
      assert ds[..|ds| - 1] == Decimal(n / 10);
      ds
  }
}
