/**
 * `utils/content_filters.py`: a page is skipped when it is blank or when too
 * small a fraction of its characters are letters, digits or whitespace.
 * The float comparison `text_chars / total < threshold` is stated exactly with
 * the threshold as a fraction.
 */
module ContentFilter {
  import opened Strings
  import opened Numbers

  datatype Filter = Filter(threshold: Ratio)

  /** `ContentFilter()`: the default threshold 0.5. */
  function Default(): (f: Filter)
    ensures 2 * f.threshold.num == f.threshold.den
  {
    Filter(Ratio(1, 2))
  }

  /** A character counted as text: `c.isalnum() or c.isspace()`. */
  predicate IsTextChar(c: char) { IsAsciiAlnum(c) || IsAsciiSpace(c) }

  /** `not text.strip()`: every character is whitespace. */
  predicate Blank(text: string) { forall i :: 0 <= i < |text| ==> IsAsciiSpace(text[i]) }

  /** The number of text characters. */
  function TextChars(text: string): (n: nat)
    ensures n <= |text|
    ensures n == |text| <==> forall i :: 0 <= i < |text| ==> IsTextChar(text[i])
  {
    if text == [] then 0
    else
      var rest := TextChars(text[1..]);
      assert forall i :: 1 <= i < |text| ==> text[i] == text[1..][i - 1];
      (if IsTextChar(text[0]) then 1 else 0) + rest
  }

  lemma {:induction false} TextCharsAppend(a: string, b: string)
    ensures TextChars(a + b) == TextChars(a) + TextChars(b)
  {
    if a == [] {
      assert a + b == b;
    } else {
      assert (a + b)[0] == a[0];
      assert (a + b)[1..] == a[1..] + b;
      TextCharsAppend(a[1..], b);
    }
  }

  /** `should_skip(text)`. */
  function ShouldSkip(f: Filter, text: string): (skip: bool)
    ensures Blank(text) ==> skip
  {
    if text == [] || Blank(text) then true
    else RatioBelow(TextChars(text), |text|, f.threshold)
  }

  /** Outside the blank case the verdict is the real ratio test of the source. */
  lemma ShouldSkipMeaning(f: Filter, text: string)
    requires !Blank(text)
    ensures ShouldSkip(f, text) <==>
      (TextChars(text) as real) / (|text| as real) < (f.threshold.num as real) / (f.threshold.den as real)
  {
    RatioBelowMeaning(TextChars(text), |text|, f.threshold);
  }

  /** A page of letters, digits and whitespace with something on it is kept, for any threshold up to 1. */
  lemma CleanTextIsKept(f: Filter, text: string)
    requires f.threshold.num <= f.threshold.den
    requires !Blank(text)
    requires forall i :: 0 <= i < |text| ==> IsTextChar(text[i])
    ensures !ShouldSkip(f, text)
  {
    var n := |text|;
    assert f.threshold.num * n <= f.threshold.den * n;
  }

  /** A threshold of at most 0 skips exactly the blank pages. */
  lemma NonPositiveThreshold(f: Filter, text: string)
    requires f.threshold.num <= 0
    ensures ShouldSkip(f, text) <==> Blank(text)
  {
    if !Blank(text) {
      assert TextChars(text) * f.threshold.den >= 0;
    }
  }

  /** Raising the threshold can only skip more pages. */
  lemma ThresholdMonotone(lo: Filter, hi: Filter, text: string)
    requires lo.threshold.num * hi.threshold.den <= hi.threshold.num * lo.threshold.den
    requires ShouldSkip(lo, text)
    ensures ShouldSkip(hi, text)
  {
    if !Blank(text) {
      RatioBelowMonotone(TextChars(text), |text|, lo.threshold, hi.threshold);
    }
  }

  /**
   * Concatenating two pages that are both kept gives a page that is kept:
   * the ratio of the whole lies between the ratios of the parts.
   */
  lemma KeptIsClosedUnderConcat(f: Filter, a: string, b: string)
    requires !ShouldSkip(f, a) && !ShouldSkip(f, b)
    ensures !ShouldSkip(f, a + b)
  {
    TextCharsAppend(a, b);
    assert !Blank(a + b) by {
      var i :| 0 <= i < |a| && !IsAsciiSpace(a[i]);
      assert (a + b)[i] == a[i];
    }
    if RatioBelow(TextChars(a) + TextChars(b), |a| + |b|, f.threshold) {
      RatioBelowMediant(TextChars(a), |a|, TextChars(b), |b|, f.threshold);
    }
  }
}
