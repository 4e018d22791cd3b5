/** The two text columns of the table: the region name (`地域名`, app.py
    line 23) and the item name with its numeric code removed (`品目名`,
    app.py line 26). */
module Cleaning {
  import opened Wrappers
  import opened Text

  /** `地域名`: the region column with surrounding whitespace stripped. */
  function NormalizeRegion(raw: string): string {
    Trim(raw)
  }

  /** `s` starts with `d` digits followed by `w` whitespace characters, both
      non-empty: a way for `^\d+\s+` to match `s`. */
  predicate CodeSplit(s: string, d: int, w: int) {
    && 1 <= d && 1 <= w && d + w <= |s|
    && AllDigits(s[..d])
    && AllSpace(s[d..d + w])
  }

  /** Where `^\d+\s+` matches at the start of `s`, if it does: the lengths
      of the digit run and of the whitespace run after it. The digit run is
      the only one a match can use, and the quantifiers are greedy, so the
      whitespace run is the longest possible. */
  function CodePrefix(s: string): (r: Option<(nat, nat)>)
    ensures r.None? <==> forall d, w :: !CodeSplit(s, d, w)
    ensures r.Some? ==> CodeSplit(s, r.value.0, r.value.1)
    ensures r.Some? ==> forall d, w :: CodeSplit(s, d, w) ==> d == r.value.0 && w <= r.value.1
  {
    var d := LeadingRun(s, IsDigit);
    if d == 0 || d == |s| || !IsSpace(s[d]) then
      assert forall d', w :: !CodeSplit(s, d', w) by {
        forall d', w | CodeSplit(s, d', w)
          ensures false
        {
          DigitRunUnique(s, d, d', w);
        }
      }
      None
    else
      var w := LeadingRun(s[d..], IsSpace);
      assert s[d..][..w] == s[d..d + w];
      assert CodeSplit(s, d, w);
      assert forall d', w' :: CodeSplit(s, d', w') ==> d' == d && w' <= w by {
        forall d', w' | CodeSplit(s, d', w')
          ensures d' == d && w' <= w
        {
          DigitRunUnique(s, d, d', w');
        }
      }
      Some((d, w))
  }

  /** A match of `^\d+\s+` uses exactly the maximal leading digit run. */
  lemma DigitRunUnique(s: string, d: nat, d': int, w': int)
    requires d == LeadingRun(s, IsDigit)
    requires CodeSplit(s, d', w')
    ensures d' == d
  {
    assert IsSpace(s[d'..d' + w'][0]);
  }

  /** `str.replace(r"^\d+\s+", "", regex=True)`: the pattern is anchored, so
      at most one code prefix is removed. */
  function StripItemCode(s: string): string {
    match CodePrefix(s)
    case None => s
    case Some((d, w)) => s[d + w..]
  }

  /** `品目名`: the item column without its leading code, then stripped. */
  function NormalizeItem(raw: string): string {
    Trim(StripItemCode(raw))
  }

  /** Region normalisation strips exactly the surrounding whitespace. */
  lemma RegionExact(w1: string, name: string, w2: string)
    requires AllSpace(w1) && AllSpace(w2) && IsTrimmed(name)
    ensures NormalizeRegion(w1 + name + w2) == name
  {
    TrimExact(w1, name, w2);
  }

  /** Region normalisation is idempotent. */
  lemma RegionIdempotent(raw: string)
    ensures NormalizeRegion(NormalizeRegion(raw)) == NormalizeRegion(raw)
  {
    TrimIdempotent(raw);
  }

  /** Leading whitespace makes no difference to `TrimStart`. */
  lemma {:induction false} TrimStartAfterSpaces(w: string, u: string)
    requires AllSpace(w)
    ensures TrimStart(w + u) == TrimStart(u)
  {
    if |w| > 0 {
      assert (w + u)[1..] == w[1..] + u;
      TrimStartAfterSpaces(w[1..], u);
    } else {
      assert w + u == u;
    }
  }

  /** Leading whitespace makes no difference to `Trim`. */
  lemma TrimAfterSpaces(w: string, u: string)
    requires AllSpace(w)
    ensures Trim(w + u) == Trim(u)
  {
    TrimStartAfterSpaces(w, u);
  }

  /** An item spelled as a code, whitespace and a name normalises to the
      stripped name, whatever the name is. */
  lemma ItemWithCode(code: string, gap: string, name: string)
    requires |code| > 0 && AllDigits(code)
    requires |gap| > 0 && AllSpace(gap)
    ensures NormalizeItem(code + gap + name) == Trim(name)
  {
    var s := code + gap + name;
    assert s[..|code|] == code;
    assert s[|code|..|code| + |gap|] == gap;
    assert CodeSplit(s, |code|, |gap|);
    var (d, w) := CodePrefix(s).value;
    assert d == |code| && |gap| <= w;
    var k := w - |gap|;
    assert name[..k] == s[d + |gap|..d + w];
    assert AllSpace(name[..k]) by {
      forall i | 0 <= i < k
        ensures IsSpace(name[..k][i])
      {
        assert name[..k][i] == s[d..d + w][|gap| + i];
      }
    }
    assert StripItemCode(s) == name[k..];
    calc {
      NormalizeItem(s);
      Trim(name[k..]);
      { TrimAfterSpaces(name[..k], name[k..]); }
      Trim(name[..k] + name[k..]);
      { assert name == name[..k] + name[k..]; }
      Trim(name);
    }
  }

  /** An item with no code prefix is only stripped. */
  lemma ItemWithoutCode(raw: string)
    requires forall d, w :: !CodeSplit(raw, d, w)
    ensures NormalizeItem(raw) == Trim(raw)
  {
  }

  /** Item normalisation is a fixed point on its own output exactly when that
      output has no code prefix left: the anchored pattern removes one code
      only, so it is not idempotent in general. */
  lemma ItemIdempotentIff(raw: string)
    ensures NormalizeItem(NormalizeItem(raw)) == NormalizeItem(raw)
        <==> CodePrefix(NormalizeItem(raw)).None?
  {
    var t := NormalizeItem(raw);
    match CodePrefix(t)
    case None =>
      TrimOfTrimmed(t);
    case Some((d, w)) =>
      assert |NormalizeItem(t)| <= |t[d + w..]| < |t|;
  }

  /** A code and whitespace in front of an already stripped name are removed
      and the name is returned as it is. */
  lemma CodeBeforeName(code: string, gap: string, name: string)
    requires |code| > 0 && AllDigits(code)
    requires |gap| > 0 && AllSpace(gap)
    requires IsTrimmed(name)
    ensures NormalizeItem(code + gap + name) == name
  {
    ItemWithCode(code, gap, name);
    TrimOfTrimmed(name);
  }

  /** `"0001 総合"` normalises to `"総合"`.
      The literals arrive through `requires` for solver stability: stated
      inline, the solver unfolds the string functions on them at length. */
  lemma ItemExampleCoded(code: string, gap: string, name: string)
    requires code == "0001" && gap == " " && name == "総合"
    ensures NormalizeItem(code + gap + name) == name
  {
    CodeBeforeName(code, gap, name);
  }

  /** A code glued to the name, with no whitespace between them, is kept:
      only the surrounding whitespace is stripped. */
  lemma CodeWithoutGap(code: string, name: string)
    requires AllDigits(code)
    requires |name| > 0 && !IsDigit(name[0]) && !IsSpace(name[0])
    ensures NormalizeItem(code + name) == Trim(code + name)
  {
    LeadingRunAppend(code, name, IsDigit);
    assert (code + name)[|code|] == name[0];
  }

  /** A trimmed name that does not start with a digit has no code and is
      left as it is. */
  lemma NameWithoutCode(name: string)
    requires |name| > 0 && !IsDigit(name[0]) && IsTrimmed(name)
    ensures NormalizeItem(name) == name
  {
    ItemWithoutCode(name);
    TrimOfTrimmed(name);
  }

  /** `"食料"`, which has no code, is left as it is.
      The literals arrive through `requires` for solver stability: stated
      inline, the solver unfolds the string functions on them at length. */
  lemma ItemExampleName(name: string)
    requires name == "食料"
    ensures NormalizeItem(name) == name
  {
    NameWithoutCode(name);
  }

  /** A code glued to a trimmed name is kept in full. */
  lemma CodeGluedToName(code: string, name: string)
    requires |code| > 0 && AllDigits(code)
    requires |name| > 0 && !IsDigit(name[0]) && IsTrimmed(name)
    ensures NormalizeItem(code + name) == code + name
  {
    CodeWithoutGap(code, name);
    assert (code + name)[0] == code[0];
    assert (code + name)[|code + name| - 1] == name[|name| - 1];
    TrimOfTrimmed(code + name);
  }

  /** `"0001総合"`, a code with no whitespace after it, is left as it is.
      The literals arrive through `requires` for solver stability: stated
      inline, the solver unfolds the string functions on them at length. */
  lemma ItemExampleNoGap(code: string, name: string)
    requires code == "0001" && name == "総合"
    ensures NormalizeItem(code + name) == code + name
  {
    CodeGluedToName(code, name);
  }

  /** Two codes in a row lose one code per pass, so normalising twice
      differs from normalising once (`"12 34 x"` gives `"34 x"`, then `"x"`). */
  lemma ItemNotIdempotent(code1: string, code2: string, gap: string, name: string)
    requires |code1| > 0 && AllDigits(code1) && |code2| > 0 && AllDigits(code2)
    requires |gap| > 0 && AllSpace(gap) && |name| > 0 && IsTrimmed(name)
    ensures NormalizeItem(code1 + gap + (code2 + gap + name)) == code2 + gap + name
    ensures NormalizeItem(NormalizeItem(code1 + gap + (code2 + gap + name))) == name
    ensures NormalizeItem(NormalizeItem(code1 + gap + (code2 + gap + name)))
         != NormalizeItem(code1 + gap + (code2 + gap + name))
  {
    var once := code2 + gap + name;
    assert once[0] == code2[0] && once[|once| - 1] == name[|name| - 1];
    CodeBeforeName(code1, gap, once);
    CodeBeforeName(code2, gap, name);
  }

  /** The concrete case `"12 34 x"`.
      The literals arrive through `requires` for solver stability: stated
      inline, the solver unfolds the string functions on them at length. */
  lemma ItemNotIdempotentExample(code1: string, code2: string, gap: string, name: string)
    requires code1 == "12" && code2 == "34" && gap == " " && name == "x"
    ensures NormalizeItem(code1 + gap + (code2 + gap + name)) == code2 + gap + name
    ensures NormalizeItem(code2 + gap + name) == name
  {
    ItemNotIdempotent(code1, code2, gap, name);
  }
}
