/** Cosine distance (internal/vectorindex/hnsw.go) and cosine similarity
    (internal/store/store.go) over real vectors, the square root being any function that
    has positive values with the right squares on positive numbers. */
module Cosine {
  import opened HnswGraph

  ghost predicate SquareRoot(root: real -> real) {
    forall x: real :: x > 0.0 ==> root(x) > 0.0 && root(x) * root(x) == x
  }

  function Times(x: real, y: real): real { x * y }

  function Dot(a: Vec, b: Vec): real
    requires |a| == |b|
  {
    if a == [] then 0.0 else Dot(a[..|a| - 1], b[..|b| - 1]) + Times(a[|a| - 1], b[|b| - 1])
  }

  lemma {:induction false} DotSymmetric(a: Vec, b: Vec)
    requires |a| == |b|
    ensures Dot(a, b) == Dot(b, a)
  {
    if a != [] {
      DotSymmetric(a[..|a| - 1], b[..|b| - 1]);
    }
  }

  lemma {:induction false} NormNonNegative(a: Vec)
    ensures Dot(a, a) >= 0.0
  {
    if a != [] {
      NormNonNegative(a[..|a| - 1]);
    }
  }

  lemma {:induction false} NormPositive(root: real -> real, a: Vec)
    requires SquareRoot(root) && Dot(a, a) != 0.0
    ensures root(Dot(a, a)) > 0.0
  {
    NormNonNegative(a);
  }

  function Ratio(d: real, x: real, y: real): real
    requires x > 0.0 && y > 0.0
  {
    ProductPositive(x, y);
    d / Times(x, y)
  }

  lemma ProductPositive(x: real, y: real)
    requires x > 0.0 && y > 0.0
    ensures Times(x, y) > 0.0
  {
  }

  function Quotient(root: real -> real, a: Vec, b: Vec): real
    requires SquareRoot(root) && |a| == |b| && Dot(a, a) != 0.0 && Dot(b, b) != 0.0
  {
    NormPositive(root, a);
    NormPositive(root, b);
    Ratio(Dot(a, b), root(Dot(a, a)), root(Dot(b, b)))
  }

  function Distance(root: real -> real, a: Vec, b: Vec): real
    requires SquareRoot(root) && |a| == |b|
  {
    if Dot(a, a) == 0.0 || Dot(b, b) == 0.0 then 1.0 else 1.0 - Quotient(root, a, b)
  }

  function Similarity(root: real -> real, a: Vec, b: Vec): real
    requires SquareRoot(root)
  {
    if |a| != |b| || Dot(a, a) == 0.0 || Dot(b, b) == 0.0 then 0.0 else Quotient(root, a, b)
  }

  /** One minus the index's distance is the store's similarity, zero vectors included. */
  lemma SimilarityFromDistance(root: real -> real, a: Vec, b: Vec)
    requires SquareRoot(root) && |a| == |b|
    ensures Similarity(root, b, a) == 1.0 - Distance(root, a, b)
    ensures Distance(root, a, b) == Distance(root, b, a)
  {
    DotSymmetric(a, b);
    if Dot(a, a) != 0.0 && Dot(b, b) != 0.0 {
      var x, y := root(Dot(a, a)), root(Dot(b, b));
      assert x * y == y * x;
    }
  }

  // ---------- what the similarity means ----------

  lemma RootSquares(root: real -> real, x: real)
    requires SquareRoot(root) && x > 0.0
    ensures root(x) > 0.0 && Times(root(x), root(x)) == x
  {
  }

  /** A positive number has only one positive root. */
  lemma RootIs(root: real -> real, x: real, y: real)
    requires SquareRoot(root) && x > 0.0 && y > 0.0 && Times(y, y) == x
    ensures root(x) == y
  {
    hide Times, SquareRoot;
    RootSquares(root, x);
    SquareOrder(root(x), y);
    SquareOrder(y, root(x));
  }

  /** a + t * b */
  function PlusScaled(a: Vec, t: real, b: Vec): (r: Vec)
    requires |a| == |b|
    ensures |r| == |a| && forall i :: 0 <= i < |r| ==> r[i] == a[i] + Times(t, b[i])
  {
    seq(|a|, i requires 0 <= i < |a| => a[i] + Times(t, b[i]))
  }

  lemma {:induction false} DotPlusScaled(a: Vec, t: real, b: Vec, c: Vec)
    requires |a| == |b| == |c|
    ensures Dot(PlusScaled(a, t, b), c) == Dot(a, c) + Times(t, Dot(b, c))
  {
    if a != [] {
      hide Dot, Times;
      var n := |a| - 1;
      var r, r' := PlusScaled(a, t, b), PlusScaled(a[..n], t, b[..n]);
      DotPlusScaled(a[..n], t, b[..n], c[..n]);
      forall i | 0 <= i < n ensures r[..n][i] == r'[i] {
        assert a[..n][i] == a[i] && b[..n][i] == b[i];
      }
      assert r[..n] == r';
      DotLast(a, c);
      DotLast(b, c);
      DotLast(r, c);
      hide PlusScaled;
      Distribute(Dot(a[..n], c[..n]), Dot(b[..n], c[..n]), t, a[n], b[n], c[n]);
    } else {
      assert Dot([], []) == 0.0;
    }
  }

  lemma DotLast(a: Vec, b: Vec)
    requires |a| == |b| > 0
    ensures var n := |a| - 1; Dot(a, b) == Dot(a[..n], b[..n]) + Times(a[n], b[n])
  {
    hide Times;
  }

  lemma Distribute(x: real, y: real, t: real, a: real, b: real, c: real)
    ensures (x + Times(t, y)) + Times(a + Times(t, b), c) == (x + Times(a, c)) + Times(t, y + Times(b, c))
  {
  }

  lemma NormOfPlusScaled(a: Vec, t: real, b: Vec)
    requires |a| == |b|
    ensures Dot(PlusScaled(a, t, b), PlusScaled(a, t, b))
         == Dot(a, a) + Times(t, Dot(a, b)) + Times(t, Dot(a, b) + Times(t, Dot(b, b)))
  {
    var s := PlusScaled(a, t, b);
    DotPlusScaled(a, t, b, s);
    DotPlusScaled(a, t, b, a);
    DotPlusScaled(a, t, b, b);
    hide PlusScaled, Dot, Times;
    NormOfSum(a, t, b, s);
  }

  lemma NormOfSum(a: Vec, t: real, b: Vec, s: Vec)
    requires |a| == |b| == |s| && Dot(s, s) == Dot(a, s) + Times(t, Dot(b, s))
    requires Dot(s, a) == Dot(a, a) + Times(t, Dot(b, a)) && Dot(s, b) == Dot(a, b) + Times(t, Dot(b, b))
    ensures Dot(s, s) == Dot(a, a) + Times(t, Dot(a, b)) + Times(t, Dot(a, b) + Times(t, Dot(b, b)))
  {
    hide Dot, Times;
    DotSymmetric(a, s);
    DotSymmetric(b, s);
    DotSymmetric(a, b);
  }

  lemma CauchySchwarz(a: Vec, b: Vec)
    requires |a| == |b| && Dot(b, b) > 0.0
    ensures Times(Dot(a, b), Dot(a, b)) <= Times(Dot(a, a), Dot(b, b))
  {
    hide PlusScaled, Dot, Times;
    var t := -Dot(a, b) / Dot(b, b);
    NormOfPlusScaled(a, t, b);
    NormNonNegative(PlusScaled(a, t, b));
    Discriminant(Dot(a, a), Dot(a, b), Dot(b, b), t);
  }

  lemma Discriminant(aa: real, ab: real, bb: real, t: real)
    requires bb > 0.0 && t == -ab / bb && aa + Times(t, ab) + Times(t, ab + Times(t, bb)) >= 0.0
    ensures Times(ab, ab) <= Times(aa, bb)
  {
    assert t * bb == -ab;
    assert Times(t, ab + Times(t, bb)) == 0.0;
    assert aa + t * ab >= 0.0;
    assert (aa + t * ab) * bb == aa * bb + (t * bb) * ab;
    NonNegativeProduct(aa + t * ab, bb);
  }

  lemma NonNegativeProduct(x: real, y: real)
    requires x >= 0.0 && y >= 0.0
    ensures x * y >= 0.0
  {
  }

  /** A similarity lies between -1 and 1. */
  lemma SimilarityBounded(root: real -> real, a: Vec, b: Vec)
    requires SquareRoot(root)
    ensures -1.0 <= Similarity(root, a, b) <= 1.0
  {
    if |a| == |b| && Dot(a, a) != 0.0 && Dot(b, b) != 0.0 {
      hide Dot, Times, Ratio, SquareRoot;
      NormNonNegative(a);
      NormNonNegative(b);
      CauchySchwarz(a, b);
      RootSquares(root, Dot(a, a));
      RootSquares(root, Dot(b, b));
      RatioBounded(Dot(a, b), root(Dot(a, a)), root(Dot(b, b)));
    }
  }

  /** Only the zero vector has norm zero. */
  lemma {:induction false} NormZeroIff(a: Vec)
    ensures Dot(a, a) == 0.0 <==> forall i :: 0 <= i < |a| ==> a[i] == 0.0
  {
    if a != [] {
      var n := |a| - 1;
      NormZeroIff(a[..n]);
      NormNonNegative(a[..n]);
      DotLast(a, a);
      SumOfSquare(Dot(a[..n], a[..n]), a[n]);
      hide Dot, Times;
      assert forall i :: 0 <= i < n ==> a[..n][i] == a[i];
    }
  }

  lemma SumOfSquare(x: real, y: real)
    requires x >= 0.0
    ensures x + Times(y, y) == 0.0 <==> x == 0.0 && y == 0.0
  {
    if y < 0.0 {
      ProductPositive(-y, -y);
      TimesSigns(y, 0.0);
    } else if y > 0.0 {
      ProductPositive(y, y);
    }
  }

  lemma {:induction false} DotWithZero(a: Vec, b: Vec)
    requires |a| == |b| && forall i :: 0 <= i < |a| ==> a[i] == 0.0
    ensures Dot(a, b) == 0.0
  {
    if a != [] {
      DotWithZero(a[..|a| - 1], b[..|b| - 1]);
    }
  }

  /** Zero similarity is orthogonality, zero vectors included. */
  lemma SimilarityZeroIff(root: real -> real, a: Vec, b: Vec)
    requires SquareRoot(root) && |a| == |b|
    ensures Similarity(root, a, b) == 0.0 <==> Dot(a, b) == 0.0
  {
    hide Dot, SquareRoot;
    NormZeroIff(a);
    NormZeroIff(b);
    DotSymmetric(a, b);
    if Dot(a, a) == 0.0 {
      DotWithZero(a, b);
    } else if Dot(b, b) == 0.0 {
      DotWithZero(b, a);
    } else {
      NormPositive(root, a);
      NormPositive(root, b);
      RatioZero(Dot(a, b), root(Dot(a, a)), root(Dot(b, b)));
    }
  }

  lemma RatioZero(d: real, x: real, y: real)
    requires x > 0.0 && y > 0.0
    ensures Ratio(d, x, y) == 0.0 <==> d == 0.0
  {
    ProductPositive(x, y);
    QuotientTimes(d, Times(x, y));
  }

  lemma SquareOrder(x: real, y: real)
    requires y >= 0.0
    ensures Times(x, x) <= Times(y, y) ==> x <= y
  {
    if x > y {
      ProductPositive(x - y, x + y);
      assert Times(x - y, x + y) == x * x - y * y;
    }
  }

  lemma FactorOrder(c: real, d: real, m: real)
    requires m > 0.0
    ensures Times(c, m) <= Times(d, m) ==> c <= d
  {
    if c > d {
      ProductPositive(c - d, m);
      assert Times(c - d, m) == c * m - d * m;
    }
  }

  lemma QuotientTimes(d: real, m: real)
    requires m != 0.0
    ensures Times(d / m, m) == d
  {
  }

  lemma TimesSquares(x: real, y: real)
    ensures Times(Times(x, y), Times(x, y)) == Times(Times(x, x), Times(y, y))
  {
  }

  lemma TimesSigns(x: real, m: real)
    ensures Times(-x, -x) == Times(x, x) && Times(1.0, m) == m && Times(-1.0, m) == -m
  {
  }

  lemma RatioBounded(ab: real, x: real, y: real)
    requires x > 0.0 && y > 0.0 && Times(ab, ab) <= Times(Times(x, x), Times(y, y))
    ensures -1.0 <= Ratio(ab, x, y) <= 1.0
  {
    hide Times;
    ProductPositive(x, y);
    var m := Times(x, y);
    TimesSquares(x, y);
    TimesSigns(ab, m);
    SquareOrder(ab, m);
    SquareOrder(-ab, m);
    QuotientTimes(ab, m);
    FactorOrder(ab / m, 1.0, m);
    FactorOrder(-1.0, ab / m, m);
  }

  /** A vector that is not zero is as similar to itself as can be. */
  lemma SimilarityToItself(root: real -> real, a: Vec)
    requires SquareRoot(root) && Dot(a, a) != 0.0
    ensures Similarity(root, a, a) == 1.0
  {
    hide Dot, Ratio, SquareRoot, Times;
    NormNonNegative(a);
    RootSquares(root, Dot(a, a));
    RatioToItself(root(Dot(a, a)), Dot(a, a));
  }

  lemma RatioToItself(r: real, n: real)
    requires r > 0.0 && Times(r, r) == n
    ensures Ratio(n, r, r) == 1.0
  {
    hide Times;
    ProductPositive(r, r);
    QuotientTimes(n, n);
    TimesSigns(n, n);
    FactorOrder(n / n, 1.0, n);
    FactorOrder(1.0, n / n, n);
  }

  function Scaled(c: real, a: Vec): (r: Vec)
    ensures |r| == |a| && forall i :: 0 <= i < |r| ==> r[i] == Times(c, a[i])
  {
    seq(|a|, i requires 0 <= i < |a| => Times(c, a[i]))
  }

  lemma {:induction false} DotScaled(c: real, a: Vec, b: Vec)
    requires |a| == |b|
    ensures Dot(Scaled(c, a), b) == Times(c, Dot(a, b))
  {
    if a != [] {
      hide Dot, Times;
      var n := |a| - 1;
      var r, r' := Scaled(c, a), Scaled(c, a[..n]);
      DotScaled(c, a[..n], b[..n]);
      forall i | 0 <= i < n ensures r[..n][i] == r'[i] {
        assert a[..n][i] == a[i];
      }
      assert r[..n] == r';
      DotLast(a, b);
      DotLast(r, b);
      hide Scaled;
      ScaleTerm(c, Dot(a[..n], b[..n]), a[n], b[n]);
    } else {
      assert Dot([], []) == 0.0;
    }
  }

  lemma ScaleTerm(c: real, x: real, a: real, b: real)
    ensures Times(c, x) + Times(Times(c, a), b) == Times(c, x + Times(a, b))
  {
  }

  /** Only directions count: lengthening or shortening a vector changes nothing. */
  lemma SimilarityIgnoresLength(root: real -> real, c: real, a: Vec, b: Vec)
    requires SquareRoot(root) && c > 0.0
    ensures Similarity(root, Scaled(c, a), b) == Similarity(root, a, b)
  {
    hide Dot, Scaled, SquareRoot, Ratio, Times;
    if |a| == |b| {
      var s, aa := Scaled(c, a), Dot(a, a);
      DotScaled(c, a, b);
      DotScaled(c, a, s);
      DotSymmetric(a, s);
      DotScaled(c, a, a);
      NormNonNegative(a);
      NormNonNegative(b);
      ZeroScaled(c, aa);
      if aa != 0.0 && Dot(b, b) != 0.0 {
        RootSquares(root, aa);
        RootSquares(root, Dot(b, b));
        RootScaled(root, c, aa);
        ProductPositive(c, root(aa));
        CancelFactor(c, Dot(a, b), root(aa), root(Dot(b, b)));
      }
    }
  }

  lemma ZeroScaled(c: real, x: real)
    requires c > 0.0 && x >= 0.0
    ensures Times(c, Times(c, x)) == 0.0 <==> x == 0.0
  {
    if x > 0.0 {
      ProductPositive(c, x);
      ProductPositive(c, Times(c, x));
    } else {
      assert Times(c, x) == 0.0;
    }
  }

  lemma RootScaled(root: real -> real, c: real, x: real)
    requires SquareRoot(root) && c > 0.0 && x > 0.0
    ensures root(Times(c, Times(c, x))) == Times(c, root(x))
  {
    hide SquareRoot;
    RootSquares(root, x);
    var r := root(x);
    ProductPositive(c, x);
    ProductPositive(c, Times(c, x));
    ProductPositive(c, r);
    assert Times(Times(c, r), Times(c, r)) == Times(c, Times(c, Times(r, r)));
    hide Times;
    RootIs(root, Times(c, Times(c, x)), Times(c, r));
  }

  lemma CancelFactor(c: real, d: real, x: real, y: real)
    requires c > 0.0 && x > 0.0 && y > 0.0 && Times(c, x) > 0.0
    ensures Ratio(Times(c, d), Times(c, x), y) == Ratio(d, x, y)
  {
    var m := Times(x, y);
    ProductPositive(x, y);
    assert Times(Times(c, x), y) == Times(c, m);
    ProductPositive(c, m);
    CancelInQuotient(c, d, m);
  }

  lemma CancelInQuotient(c: real, d: real, m: real)
    requires m > 0.0 && Times(c, m) > 0.0
    ensures Times(c, d) / Times(c, m) == d / m
  {
    var k := d / m;
    assert k * m == d;
    assert c * d == k * (c * m);
  }

  method DotAndNorms(a: Vec, b: Vec) returns (dot: real, na: real, nb: real)
    requires |a| == |b|
    ensures dot == Dot(a, b) && na == Dot(a, a) && nb == Dot(b, b)
  {
    dot, na, nb := 0.0, 0.0, 0.0;
    for i := 0 to |a|
      invariant dot == Dot(a[..i], b[..i]) && na == Dot(a[..i], a[..i]) && nb == Dot(b[..i], b[..i])
    {
      dot := dot + a[i] * b[i];
      na := na + a[i] * a[i];
      nb := nb + b[i] * b[i];
      assert a[..i + 1][..i] == a[..i] && b[..i + 1][..i] == b[..i];
    }
    assert a[..|a|] == a && b[..|b|] == b;
  }

  method CosineDistance(root: real -> real, a: Vec, b: Vec) returns (d: real)
    requires SquareRoot(root) && |a| == |b|
    ensures d == Distance(root, a, b)
  {
    hide SquareRoot;
    var dot, na, nb := DotAndNorms(a, b);
    if na == 0.0 || nb == 0.0 {
      return 1.0;
    }
    NormPositive(root, a);
    NormPositive(root, b);
    d := 1.0 - dot / (root(na) * root(nb));
  }

  method CosineSimilarity(root: real -> real, a: Vec, b: Vec) returns (s: real)
    requires SquareRoot(root)
    ensures s == Similarity(root, a, b)
  {
    hide SquareRoot;
    if |a| != |b| {
      return 0.0;
    }
    var dot, na, nb := DotAndNorms(a, b);
    if na == 0.0 || nb == 0.0 {
      return 0.0;
    }
    NormPositive(root, a);
    NormPositive(root, b);
    s := dot / (root(na) * root(nb));
  }

  /** The metric of an index; vectors of different lengths never meet inside one. */
  function Metric(root: real -> real): Metric
    requires SquareRoot(root)
  {
    (a: Vec, b: Vec) => if |a| == |b| then Distance(root, a, b) else 0.0
  }
}
