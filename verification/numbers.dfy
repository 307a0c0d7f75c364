/**
 * Options and exact rational thresholds.
 *
 * The crawler compares floating-point ratios against float thresholds
 * (`0.9` for duplicate detection, `0.5` for the content filter).  The model
 * states every such comparison exactly, with the threshold as a fraction
 * `num / den` over a positive denominator.
 */
module Numbers {

  datatype Option<+T> = None | Some(value: T)

  type Pos = x: int | x > 0 witness 1

  /** The threshold `num / den`. */
  datatype Ratio = Ratio(num: int, den: Pos)

  /** `x / y < t` for a positive `y`, without division. */
  predicate RatioBelow(x: int, y: Pos, t: Ratio) { x * t.den < t.num * y }

  lemma {:induction false} RatioBelowMeaning(x: int, y: Pos, t: Ratio)
    ensures RatioBelow(x, y, t) <==> (x as real) / (y as real) < (t.num as real) / (t.den as real)
  {
    var xr, yr, nr, dr := x as real, y as real, t.num as real, t.den as real;
    assert xr / yr < nr / dr <==> xr * dr < nr * yr by {
      assert xr / yr * (yr * dr) == xr * dr;
      assert nr / dr * (yr * dr) == nr * yr;
    }
    assert (x * t.den) as real == xr * dr;
    assert (t.num * y) as real == nr * yr;
  }

  lemma MulStrict(x: int, y: int, c: int)
    requires x < y && c > 0
    ensures x * c < y * c
  {
  }

  lemma MulWeak(x: int, y: int, c: int)
    requires x <= y && c >= 0
    ensures x * c <= y * c
  {
  }

  /** Below a threshold stays below any larger threshold. */
  lemma RatioBelowMonotone(x: int, y: Pos, lo: Ratio, hi: Ratio)
    requires lo.num * hi.den <= hi.num * lo.den
    requires RatioBelow(x, y, lo)
    ensures RatioBelow(x, y, hi)
  {
    MulStrict(x * lo.den, lo.num * y, hi.den);
    MulWeak(lo.num * hi.den, hi.num * lo.den, y);
    assert (x * hi.den) * lo.den < (hi.num * y) * lo.den;
    if x * hi.den >= hi.num * y {
      MulWeak(hi.num * y, x * hi.den, lo.den);
    }
  }

  /** The ratio of two sums lies between the ratios of the parts (the mediant). */
  lemma RatioBelowMediant(x1: int, y1: Pos, x2: int, y2: Pos, t: Ratio)
    requires RatioBelow(x1 + x2, y1 + y2, t)
    ensures RatioBelow(x1, y1, t) || RatioBelow(x2, y2, t)
  {
    assert (x1 + x2) * t.den == x1 * t.den + x2 * t.den;
    assert t.num * (y1 + y2) == t.num * y1 + t.num * y2;
  }
}
