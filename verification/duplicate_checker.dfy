/**
 * `utils/duplicate_checker.py`: near-duplicate detection over a bounded
 * window of token-count vectors.
 *
 * `_cosine_sim(a, b) >= threshold` is stated exactly over the integers: with
 * the threshold `p / q` (`q > 0`) and all counts non-negative, the test
 * `dot / (|a| * |b|) >= p / q` holds iff `p <= 0` or
 * `q^2 * dot^2 >= p^2 * |a|^2 * |b|^2` (`CosineAtLeastMeaning`).  The
 * lock around the check-then-insert is abstracted away: `IsDuplicate` is one
 * atomic transition of the checker's state.
 */
module DuplicateChecker {
  import opened Numbers
  import opened Counter
  import Tokenizer

  /** A sparse token-count vector, as `dict(Counter(tokens))`. */
  type Vector = Counts

  /** `_to_vector(tokens)`. */
  function ToVector(tokens: seq<string>): (v: Vector)
    ensures DistinctKeys(v) && AllPositive(v)
    ensures forall w :: w in Keys(v) <==> w in tokens
    ensures forall w :: Get(v, w) == multiset(tokens)[w]
    ensures Total(v) == |tokens|
  {
    Counter.Of(tokens)
  }

  /**
   * The dot product.  The source sums over the keys common to both vectors;
   * summing over all keys of `a` is the same, since `b.get(k, 0)` is 0 off `b`.
   */
  function Dot(a: Vector, b: Vector): nat {
    if a == [] then 0 else a[0].count * Get(b, a[0].key) + Dot(a[1..], b)
  }

  /** The squared Euclidean norm. */
  function NormSq(a: Vector): nat {
    if a == [] then 0 else a[0].count * a[0].count + NormSq(a[1..])
  }

  /** `_cosine_sim(a, b) >= t`, decided exactly. */
  predicate CosineAtLeast(a: Vector, b: Vector, t: Ratio) {
    if a == [] || b == [] then 0 >= t.num
    else if NormSq(a) == 0 || NormSq(b) == 0 then 0 >= t.num
    else t.num <= 0 || t.den * t.den * (Dot(a, b) * Dot(a, b)) >= t.num * t.num * (NormSq(a) * NormSq(b))
  }

  // ---------------------------------------------------------------------------
  // Vector algebra

  /** `b` without the entry for `k`. */
  function RemoveKey(b: Vector, k: string): (r: Vector)
    ensures forall x :: Get(r, x) == (if x == k then 0 else Get(b, x))
    ensures k !in Keys(r)
    ensures forall x :: x in Keys(r) ==> x in Keys(b)
  {
    if b == [] then []
    else if b[0].key == k then RemoveKey(b[1..], k)
    else [b[0]] + RemoveKey(b[1..], k)
  }

  lemma {:induction false} RemoveKeyDistinct(b: Vector, k: string)
    requires DistinctKeys(b)
    ensures DistinctKeys(RemoveKey(b, k))
  {
    if b != [] {
      RemoveKeyDistinct(b[1..], k);
      if b[0].key != k {
        assert RemoveKey(b, k)[1..] == RemoveKey(b[1..], k);
      }
    }
  }

  lemma {:induction false} RemoveAbsentKey(b: Vector, k: string)
    requires k !in Keys(b)
    ensures RemoveKey(b, k) == b
  {
    if b != [] {
      assert Keys(b[1..]) == Keys(b)[1..];
      RemoveAbsentKey(b[1..], k);
    }
  }

  lemma {:induction false} NormSqSplit(b: Vector, k: string)
    requires DistinctKeys(b)
    ensures NormSq(b) == Get(b, k) * Get(b, k) + NormSq(RemoveKey(b, k))
  {
    if b != [] {
      NormSqSplit(b[1..], k);
      if b[0].key == k {
        GetAbsent(b[1..], k);
        RemoveAbsentKey(b[1..], k);
      }
    }
  }

  /** Entries of `b` whose key `a` lacks do not contribute to the dot product. */
  lemma {:induction false} DotIgnoresAbsent(a: Vector, b: Vector, k: string)
    requires k !in Keys(a)
    ensures Dot(a, b) == Dot(a, RemoveKey(b, k))
  {
    if a != [] {
      assert Keys(a[1..]) == Keys(a)[1..];
      DotIgnoresAbsent(a[1..], b, k);
    }
  }

  lemma {:induction false} DotConsRight(b: Vector, k: string, v: nat, a: Vector)
    requires DistinctKeys(b) && k !in Keys(a)
    ensures Dot(b, [Entry(k, v)] + a) == Get(b, k) * v + Dot(b, a)
  {
    if b != [] {
      DotConsRight(b[1..], k, v, a);
      if b[0].key == k {
        GetAbsent(a, k);
        GetAbsent(b[1..], k);
      }
    }
  }

  lemma {:induction false} DotEmptyRight(b: Vector)
    ensures Dot(b, []) == 0
  {
    if b != [] {
      DotEmptyRight(b[1..]);
    }
  }

  /** The similarity is symmetric. */
  lemma {:induction false} DotSymmetric(a: Vector, b: Vector)
    requires DistinctKeys(a) && DistinctKeys(b)
    ensures Dot(a, b) == Dot(b, a)
  {
    if a == [] {
      DotEmptyRight(b);
    } else {
      var k, v := a[0].key, a[0].count;
      DotSymmetric(a[1..], b);
      assert a == [Entry(k, v)] + a[1..];
      DotConsRight(b, k, v, a[1..]);
      calc {
        Dot(a, b);
        v * Get(b, k) + Dot(a[1..], b);
        Get(b, k) * v + Dot(b, a[1..]);
        Dot(b, a);
      }
    }
  }

  lemma {:induction false} DotSelf(a: Vector)
    requires DistinctKeys(a)
    ensures Dot(a, a) == NormSq(a)
  {
    if a != [] {
      DotSelf(a[1..]);
      DotIgnoresAbsent(a[1..], a, a[0].key);
      RemoveAbsentKey(a[1..], a[0].key);
    }
  }

  lemma SquareBound(p: int, q: int)
    requires 0 <= p && q * q <= p * p
    ensures q <= p
  {
  }

  lemma MulLe(x: int, y: int, c: int)
    requires x <= y && 0 <= c
    ensures x * c <= y * c
  {
  }

  lemma Expand(a: int, b: int, c: int, d: int)
    ensures (a + b) * (c + d) == a * c + a * d + b * c + b * d
  {
  }

  lemma ProductSquare(v: int, y: int)
    ensures (v * y) * (v * y) == (v * v) * (y * y)
  {
  }

  lemma Regroup4(a: int, b: int, c: int, d: int)
    ensures (a * b) * (c * d) == (a * d) * (c * b)
  {
  }

  /** `4ab <= (a + b)^2`. */
  lemma FourProducts(a: int, b: int)
    ensures 4 * (a * b) <= (a + b) * (a + b)
  {
    Expand(a, b, a, b);
    assert (a + b) * (a + b) - 4 * (a * b) == (a - b) * (a - b);
  }

  /** The cross term squared: `(2vyd)^2 = 4 v^2 y^2 d^2 <= 4 v^2 y^2 z` when `d^2 <= z`. */
  lemma CrossTerm(v: int, y: int, d: int, z: int)
    requires d * d <= z
    ensures (2 * (v * y) * d) * (2 * (v * y) * d) <= 4 * (((v * v) * (y * y)) * z)
  {
    ProductSquare(v, y);
    assert (2 * (v * y) * d) * (2 * (v * y) * d) == 4 * (((v * v) * (y * y)) * (d * d));
    MulLe(d * d, z, (v * v) * (y * y));
  }

  /** The inductive step of Cauchy–Schwarz: adding one coordinate `(v, y)`. */
  lemma StepBound(v: int, y: int, d: int, x: int, w: int)
    requires 0 <= x && 0 <= w && d * d <= x * w
    ensures (v * y + d) * (v * y + d) <= (v * v + x) * (y * y + w)
  {
    CrossBound(v, y, d, x, w);
    ProductSquare(v, y);
    Expand(v * y, d, v * y, d);
    Expand(v * v, x, y * y, w);
  }

  /** `2vyd <= v^2 w + x y^2` when `d^2 <= xw`. */
  lemma CrossBound(v: int, y: int, d: int, x: int, w: int)
    requires 0 <= x && 0 <= w && d * d <= x * w
    ensures 2 * (v * y) * d <= (v * v) * w + x * (y * y)
  {
    var vv, yy := v * v, y * y;
    CrossTerm(v, y, d, x * w);
    Regroup4(vv, yy, x, w);
    FourProducts(vv * w, x * yy);
    SquareBound(vv * w + x * yy, 2 * (v * y) * d);
  }

  /** Cauchy–Schwarz: `dot^2 <= |a|^2 * |b|^2`, i.e. the similarity never exceeds 1. */
  lemma {:induction false} CauchySchwarz(a: Vector, b: Vector)
    requires DistinctKeys(a) && DistinctKeys(b)
    ensures Dot(a, b) * Dot(a, b) <= NormSq(a) * NormSq(b)
  {
    if a != [] {
      var k, v := a[0].key, a[0].count;
      var rest := RemoveKey(b, k);
      RemoveKeyDistinct(b, k);
      CauchySchwarz(a[1..], rest);
      DotIgnoresAbsent(a[1..], b, k);
      NormSqSplit(b, k);
      StepBound(v, Get(b, k), Dot(a[1..], rest), NormSq(a[1..]), NormSq(rest));
    }
  }

  lemma RealMulLe(x: real, y: real, c: real)
    requires x <= y && 0.0 <= c
    ensures x * c <= y * c
  {
    assert y * c - x * c == (y - x) * c;
  }

  lemma RealMulLt(x: real, y: real, c: real)
    requires x < y && 0.0 < c
    ensures x * c < y * c && c * x < c * y
  {
    assert y * c - x * c == (y - x) * c;
    assert c * y - c * x == c * (y - x);
  }

  lemma SignLt(x: real, y: real)
    requires x < 0.0 && y > 0.0
    ensures x * y < 0.0
  {
  }

  lemma SignGe(x: real, y: real)
    requires x >= 0.0 && y > 0.0
    ensures x * y >= 0.0
  {
  }

  /** Squaring keeps the order of a non-negative and a positive number. */
  lemma SquareOrder(u: real, v: real)
    requires u >= 0.0 && v > 0.0
    ensures u >= v <==> u * u >= v * v
  {
    assert u * u - v * v == (u - v) * (u + v);
    if u >= v {
      SignGe(u - v, u + v);
    } else {
      SignLt(u - v, u + v);
    }
  }

  /** `d / n >= p / q` iff `q * d >= p * n`, for positive `n` and `q`. */
  lemma CrossMultiply(d: real, n: real, p: real, q: real)
    requires n > 0.0 && q > 0.0
    ensures d / n >= p / q <==> q * d >= p * n
  {
    var c := n * q;
    RealMulLt(0.0, n, q);
    assert d / n * c == q * d by {
      assert d / n * n == d;
    }
    assert p / q * c == p * n by {
      assert p / q * q == p;
    }
    if d / n >= p / q {
      RealMulLe(p / q, d / n, c);
    } else {
      RealMulLt(d / n, p / q, c);
    }
  }

  /** `d / n >= p / q` for `d >= 0` and positive `n`, `q`, stated with squares. */
  lemma RealThreshold(d: real, n: real, p: real, q: real)
    requires d >= 0.0 && n > 0.0 && q > 0.0
    ensures d / n >= p / q <==> p <= 0.0 || (q * d) * (q * d) >= (p * n) * (p * n)
  {
    CrossMultiply(d, n, p, q);
    RealMulLe(0.0, d, q);
    assert q * d >= 0.0;
    if p > 0.0 {
      RealMulLt(0.0, p, n);
      SquareOrder(q * d, p * n);
    } else {
      RealMulLe(p, 0.0, n);
    }
  }

  /** Casting to `real` commutes with multiplication. */
  lemma CastMul(x: int, y: int)
    ensures (x * y) as real == (x as real) * (y as real)
  {
  }

  /** `x^2 * y^2` as a real is the square of `x * y`. */
  lemma CastSquares(x: int, y: int)
    ensures (x * x * (y * y)) as real == ((x as real) * (y as real)) * ((x as real) * (y as real))
  {
    CastMul(x, y);
    CastMul(x * y, x * y);
    assert x * x * (y * y) == (x * y) * (x * y);
  }

  /** `x^2 * m` as a real is the square of `x * r` when `r` is a square root of `m`. */
  lemma CastScaled(x: int, m: int, r: real)
    requires r * r == m as real
    ensures (x * x * m) as real == ((x as real) * r) * ((x as real) * r)
  {
    CastMul(x, x);
    CastMul(x * x, m);
    var xr := x as real;
    assert (xr * xr) * (r * r) == (xr * r) * (xr * r);
  }

  /** The integer test decides the real comparison `dot / (|a| * |b|) >= p / q`. */
  lemma CosineAtLeastMeaning(a: Vector, b: Vector, t: Ratio, norms: real)
    requires a != [] && b != [] && NormSq(a) > 0 && NormSq(b) > 0
    requires norms > 0.0 && norms * norms == (NormSq(a) * NormSq(b)) as real
    ensures CosineAtLeast(a, b, t) <==> (Dot(a, b) as real) / norms >= (t.num as real) / (t.den as real)
  {
    RealThreshold(Dot(a, b) as real, norms, t.num as real, t.den as real);
    CastSquares(t.den, Dot(a, b));
    CastScaled(t.num, NormSq(a) * NormSq(b), norms);
  }

  /** `_cosine_sim` is symmetric in its arguments. */
  lemma CosineSymmetric(a: Vector, b: Vector, t: Ratio)
    requires DistinctKeys(a) && DistinctKeys(b)
    ensures CosineAtLeast(a, b, t) == CosineAtLeast(b, a, t)
  {
    DotSymmetric(a, b);
  }

  /** A similarity of 0 is reached by every pair, and one above 1 by none. */
  lemma CosineInUnitInterval(a: Vector, b: Vector, t: Ratio)
    requires DistinctKeys(a) && DistinctKeys(b)
    ensures t.num <= 0 ==> CosineAtLeast(a, b, t)
    ensures t.num > t.den ==> !CosineAtLeast(a, b, t)
  {
    if t.num > t.den && a != [] && b != [] && NormSq(a) > 0 && NormSq(b) > 0 {
      CauchySchwarz(a, b);
      MulStrict(0, NormSq(a), NormSq(b));
      AboveOne(Dot(a, b) * Dot(a, b), NormSq(a) * NormSq(b), t.den, t.num);
    }
  }

  /** With `dd <= nn` and `q < p`, scaling by `q^2` stays below scaling by `p^2`. */
  lemma AboveOne(dd: int, nn: int, q: int, p: int)
    requires 0 <= dd <= nn && 0 < nn && 0 < q < p
    ensures q * q * dd < p * p * nn
  {
    MulStrict(q, p, q);
    MulStrict(q, p, p);
    MulLe(dd, nn, q * q);
    MulStrict(q * q, p * p, nn);
  }

  /** A vector with a positive count is similar to itself up to any threshold of at most 1. */
  lemma SelfSimilar(a: Vector, t: Ratio)
    requires a != [] && DistinctKeys(a) && AllPositive(a) && t.num <= t.den
    ensures CosineAtLeast(a, a, t)
  {
    DotSelf(a);
    assert NormSq(a) >= a[0].count * a[0].count > 0;
    if t.num > 0 {
      var n := NormSq(a) * NormSq(a);
      assert t.num * t.num <= t.den * t.den;
      MulLe(t.num * t.num, t.den * t.den, n);
    }
  }

  // ---------------------------------------------------------------------------
  // The checker

  /** `DuplicateChecker(n, threshold)`: capacity, threshold and the stored window, oldest first. */
  datatype Checker = Checker(n: nat, threshold: Ratio, window: seq<Vector>)

  /** `DuplicateChecker()` with the defaults `n = 1000`, `threshold = 0.9`. */
  function Default(): (c: Checker)
    ensures c.window == [] && c.n == 1000 && c.threshold.num * 10 == c.threshold.den * 9
  {
    Checker(1000, Ratio(9, 10), [])
  }

  predicate StoredVector(v: Vector) { v != [] && DistinctKeys(v) && AllPositive(v) }

  /** The window never exceeds its capacity and holds only non-empty count vectors. */
  predicate Valid(c: Checker) {
    |c.window| <= c.n && forall i :: 0 <= i < |c.window| ==> StoredVector(c.window[i])
  }

  /** `_vectorize(text)`; `None` stands for an argument that is not a `str`, which has no tokens. */
  function Vectorize(text: Option<string>): (v: Vector)
    ensures v == [] <==> Tokenizer.Tokenize(text) == []
    ensures v != [] ==> StoredVector(v) && Total(v) == |Tokenizer.Tokenize(text)|
    ensures text.None? ==> v == []
  {
    var tokens := Tokenizer.Tokenize(text);
    if tokens != [] then
      assert tokens[0] in Keys(ToVector(tokens));
      ToVector(tokens)
    else []
  }

  /** `deque(maxlen=n).append(v)`: append, then drop from the left beyond `n` entries. */
  function Append(window: seq<Vector>, v: Vector, n: nat): (r: seq<Vector>)
    requires |window| <= n
    ensures |r| == if |window| + 1 <= n then |window| + 1 else n
    ensures n > 0 ==> r[|r| - 1] == v
    ensures r == (window + [v])[|window| + 1 - |r|..]
  {
    var all := window + [v];
    if |all| <= n then all else all[|all| - n..]
  }

  /** The loop at duplicate_checker.py:38-41: some stored vector meets the threshold. */
  predicate AnySimilar(v: Vector, window: seq<Vector>, t: Ratio) {
    exists i :: 0 <= i < |window| && CosineAtLeast(v, window[i], t)
  }

  /**
   * The body of `is_duplicate` once the text is vectorised: the verdict and
   * the checker afterwards.  An empty vector is never a duplicate; a
   * duplicate leaves the window alone; a fresh vector is appended.
   */
  function Submit(c: Checker, v: Vector): (r: (bool, Checker))
    requires |c.window| <= c.n
    ensures r.0 <==> v != [] && AnySimilar(v, c.window, c.threshold)
    ensures r.0 || v == [] ==> r.1 == c
    ensures !r.0 && v != [] ==> r.1 == c.(window := Append(c.window, v, c.n))
    ensures r.1.n == c.n && r.1.threshold == c.threshold
  {
    if v == [] then (false, c)
    else if AnySimilar(v, c.window, c.threshold) then (true, c)
    else (false, c.(window := Append(c.window, v, c.n)))
  }

  /**
   * `is_duplicate(doc_text)`: a duplicate iff the text has tokens and some
   * stored vector meets the threshold against its vector; a text that is
   * neither stored nor a duplicate is appended to the window.
   */
  function IsDuplicate(c: Checker, text: Option<string>): (r: (bool, Checker))
    requires |c.window| <= c.n
    ensures r.0 <==> Tokenizer.Tokenize(text) != [] && AnySimilar(Vectorize(text), c.window, c.threshold)
    ensures r.0 || Tokenizer.Tokenize(text) == [] ==> r.1 == c
    ensures !r.0 && Tokenizer.Tokenize(text) != [] ==> r.1 == c.(window := Append(c.window, Vectorize(text), c.n))
    ensures text.None? ==> r == (false, c)
  {
    Submit(c, Vectorize(text))
  }

  lemma SubmitKeepsValid(c: Checker, v: Vector)
    requires Valid(c) && (v != [] ==> StoredVector(v))
    ensures Valid(Submit(c, v).1)
  {
    if v != [] && !AnySimilar(v, c.window, c.threshold) {
      var w := Append(c.window, v, c.n);
      forall i | 0 <= i < |w| ensures StoredVector(w[i]) {
        var all := c.window + [v];
        assert w[i] == all[|c.window| + 1 - |w| + i];
      }
    }
  }

  lemma IsDuplicateKeepsValid(c: Checker, text: Option<string>)
    requires Valid(c)
    ensures Valid(IsDuplicate(c, text).1)
  {
    SubmitKeepsValid(c, Vectorize(text));
  }

  /**
   * Submitting the same vector twice in a row: if the first call stores it,
   * the second reports a duplicate (for a capacity of at least 1 and a
   * threshold of at most 1).
   */
  lemma SecondSubmissionIsDuplicate(c: Checker, v: Vector)
    requires Valid(c) && c.n >= 1 && c.threshold.num <= c.threshold.den
    requires StoredVector(v)
    requires !Submit(c, v).0
    ensures Submit(Submit(c, v).1, v).0
  {
    var c1 := Submit(c, v).1;
    var last := |c1.window| - 1;
    assert c1.window[last] == v;
    SelfSimilar(v, c.threshold);
    assert CosineAtLeast(v, c1.window[last], c1.threshold);
  }

  /** With the defaults, a text with at least one token is first stored, then recognised. */
  lemma FalseThenTrue(text: Option<string>)
    requires Tokenizer.Tokenize(text) != []
    ensures !IsDuplicate(Default(), text).0
    ensures IsDuplicate(IsDuplicate(Default(), text).1, text).0
  {
    SecondSubmissionIsDuplicate(Default(), Vectorize(text));
  }

  /** A vector similar to nothing in the window is stored, and the verdict is false. */
  lemma SubmitFresh(c: Checker, v: Vector)
    requires |c.window| <= c.n && v != []
    requires forall i :: 0 <= i < |c.window| ==> !CosineAtLeast(v, c.window[i], c.threshold)
    ensures Submit(c, v) == (false, c.(window := Append(c.window, v, c.n)))
  {
  }

  /**
   * Window of size 2, three mutually dissimilar vectors stored in order: the
   * first has been evicted and is no longer recognised, the last still is.
   */
  lemma OldestIsEvicted(t: Ratio, va: Vector, vb: Vector, vc: Vector)
    requires 0 < t.num <= t.den
    requires StoredVector(va) && StoredVector(vb) && StoredVector(vc)
    requires !CosineAtLeast(vb, va, t)
    requires !CosineAtLeast(vc, va, t) && !CosineAtLeast(vc, vb, t)
    requires !CosineAtLeast(va, vb, t) && !CosineAtLeast(va, vc, t)
    ensures var c1 := Submit(Checker(2, t, []), va).1;
      var c2 := Submit(c1, vb).1;
      var c3 := Submit(c2, vc).1;
      && c3.window == [vb, vc]
      && !Submit(c3, va).0
      && Submit(c3, vc).0
  {
    var c0 := Checker(2, t, []);
    SubmitFresh(c0, va);
    var c1 := c0.(window := [va]);
    assert Append(c0.window, va, 2) == [va];
    SubmitFresh(c1, vb);
    var c2 := c0.(window := [va, vb]);
    assert Append(c1.window, vb, 2) == [va, vb];
    SubmitFresh(c2, vc);
    var c3 := c0.(window := [vb, vc]);
    assert Append(c2.window, vc, 2) == [vb, vc];
    SubmitFresh(c3, va);
    SelfSimilar(vc, t);
    assert CosineAtLeast(vc, c3.window[1], t);
  }
}
