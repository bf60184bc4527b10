/** The sentiment score over real vectors: the loop's similarity obeys the
    Cauchy-Schwarz inequality, so scores stay between -2 and 2. */
module Sentiment {
  type Vector = seq<real>

  /** Product and quotient under a name, so that a proof about sums need not look inside. */
  function Times(x: real, y: real): real { x * y }

  function Over(x: real, y: real): real
    requires y != 0.0
  {
    x / y
  }

  function Dot(a: Vector, b: Vector): real
    requires |a| == |b|
  {
    if a == [] then 0.0 else Dot(a[..|a| - 1], b[..|b| - 1]) + Times(a[|a| - 1], b[|b| - 1])
  }

  /** What Math.sqrt gives, as far as reals go. */
  predicate IsRoot(r: real, x: real) { r >= 0.0 && Times(r, r) == x }

  predicate HasRoot(sqrt: real -> real, a: Vector) { IsRoot(sqrt(Dot(a, a)), Dot(a, a)) }

  function Similarity(a: Vector, b: Vector, sqrt: real -> real): real
    requires |a| == |b| && HasRoot(sqrt, a) && HasRoot(sqrt, b)
  {
    if Dot(a, a) == 0.0 || Dot(b, b) == 0.0 then 0.0
    else
      RootsPositive(sqrt(Dot(a, a)), Dot(a, a), sqrt(Dot(b, b)), Dot(b, b));
      Over(Dot(a, b), Times(sqrt(Dot(a, a)), sqrt(Dot(b, b))))
  }

  lemma RootsPositive(p: real, n: real, q: real, m: real)
    requires IsRoot(p, n) && IsRoot(q, m) && n != 0.0 && m != 0.0
    ensures p > 0.0 && q > 0.0 && Times(p, q) > 0.0
  {
    PositiveProduct(p, q);
  }

  lemma PositiveProduct(x: real, y: real)
    requires x > 0.0 && y > 0.0
    ensures x * y > 0.0
  {
  }

  lemma NonNegativeProduct(x: real, y: real)
    requires x >= 0.0 && y >= 0.0
    ensures x * y >= 0.0
  {
  }

  method CosineSimilarity(a: Vector, b: Vector, sqrt: real -> real) returns (similarity: real)
    requires |a| == |b| && HasRoot(sqrt, a) && HasRoot(sqrt, b)
    ensures similarity == Similarity(a, b, sqrt)
    ensures -1.0 <= similarity <= 1.0
  {
    hide Similarity, Dot, HasRoot, Times, Over;
    DotNone();
    var dot, normA, normB := 0.0, 0.0, 0.0;
    assert a[..|a|] == a && b[..|b|] == b;
    for i := 0 to |a|
      invariant dot == Dot(a[..i], b[..i]) && normA == Dot(a[..i], a[..i]) && normB == Dot(b[..i], b[..i])
    {
      DotNext(a, b, i);
      DotNext(a, a, i);
      DotNext(b, b, i);
      dot := dot + Times(a[i], b[i]);
      normA := normA + Times(a[i], a[i]);
      normB := normB + Times(b[i], b[i]);
    }
    SimilarityBounded(a, b, sqrt);
    SimilarityValue(a, b, sqrt);
    if normA == 0.0 || normB == 0.0 { return 0.0; }
    return Over(dot, Times(sqrt(normA), sqrt(normB)));
  }

  lemma DotNone()
    ensures Dot([], []) == 0.0
  {
  }

  lemma DotStep(a: Vector, b: Vector)
    requires |a| == |b| && a != []
    ensures Dot(a, b) == Dot(a[..|a| - 1], b[..|b| - 1]) + Times(a[|a| - 1], b[|b| - 1])
  {
    hide Times;
  }

  lemma DotNext(a: Vector, b: Vector, i: nat)
    requires |a| == |b| && i < |a|
    ensures Dot(a[..i + 1], b[..i + 1]) == Dot(a[..i], b[..i]) + Times(a[i], b[i])
  {
    hide Dot, Times;
    DotStep(a[..i + 1], b[..i + 1]);
    assert a[..i + 1][..i] == a[..i] && b[..i + 1][..i] == b[..i];
  }

  lemma SimilarityValue(a: Vector, b: Vector, sqrt: real -> real)
    requires |a| == |b| && HasRoot(sqrt, a) && HasRoot(sqrt, b)
    ensures Dot(a, a) == 0.0 || Dot(b, b) == 0.0 ==> Similarity(a, b, sqrt) == 0.0
    ensures Dot(a, a) != 0.0 && Dot(b, b) != 0.0 ==>
              var r := Times(sqrt(Dot(a, a)), sqrt(Dot(b, b))); r != 0.0 && Similarity(a, b, sqrt) == Over(Dot(a, b), r)
  {
    hide Dot, Times, Over, IsRoot;
    if Dot(a, a) != 0.0 && Dot(b, b) != 0.0 { RootsPositive(sqrt(Dot(a, a)), Dot(a, a), sqrt(Dot(b, b)), Dot(b, b)); }
  }

  /** The message's closeness to the positive anchor less that to the negative one. */
  method ComputeSentimentScore(embedding: Vector, positive: Vector, negative: Vector, sqrt: real -> real) returns (score: real)
    requires |embedding| == |positive| == |negative|
    requires HasRoot(sqrt, embedding) && HasRoot(sqrt, positive) && HasRoot(sqrt, negative)
    ensures score == Similarity(embedding, positive, sqrt) - Similarity(embedding, negative, sqrt)
    ensures -2.0 <= score <= 2.0
  {
    hide Similarity, HasRoot;
    var p := CosineSimilarity(embedding, positive, sqrt);
    var n := CosineSimilarity(embedding, negative, sqrt);
    return p - n;
  }

  // ---------------------------------------------------------- Cauchy-Schwarz

  lemma SquareNonNegative(x: real)
    ensures x * x >= 0.0 && Times(x, x) >= 0.0
  {
  }

  lemma {:induction false} NormNonNegative(a: Vector)
    ensures Dot(a, a) >= 0.0
  {
    hide Dot, Times;
    if a == [] {
      DotNone();
    } else {
      NormNonNegative(a[..|a| - 1]);
      DotStep(a, a);
      SquareNonNegative(a[|a| - 1]);
    }
  }

  /** Against a square that is no larger, a non-negative number is no smaller. */
  lemma RootMonotone(p: real, q: real)
    requires p >= 0.0 && q * q <= p * p
    ensures q <= p
  {
    if q > p { LargerSquare(p, q); }
  }

  lemma LargerSquare(p: real, q: real)
    requires 0.0 <= p < q
    ensures q * q > p * p
  {
    PositiveProduct(q - p, q + p);
    assert q * q - p * p == (q - p) * (q + p);
  }

  lemma Associate4(u: real, k: real)
    ensures 4.0 * u * k == 4.0 * (u * k)
  {
  }

  lemma Product4(d: real, x: real, y: real)
    ensures (2.0 * d * x * y) * (2.0 * d * x * y) == 4.0 * (d * d) * ((x * x) * (y * y))
  {
  }

  lemma ScaleLeq(p: real, q: real, k: real)
    requires p <= q && k >= 0.0
    ensures p * k <= q * k
  {
  }

  /** A number whose square is at most four times a product of non-negative ones is at
      most their sum. */
  lemma RootOfFourfold(p: real, q: real, r: real)
    requires p >= 0.0 && q >= 0.0 && r * r <= 4.0 * (p * q)
    ensures r <= p + q
  {
    SquareNonNegative(p - q);
    assert (p + q) * (p + q) - 4.0 * (p * q) == (p - q) * (p - q);
    RootMonotone(p + q, r);
  }

  /** The cross term of one more coordinate is within the mixed squares. */
  lemma CrossTerm(d: real, n: real, m: real, x: real, y: real)
    requires n >= 0.0 && m >= 0.0 && d * d <= n * m
    ensures 2.0 * d * x * y <= n * (y * y) + m * (x * x)
  {
    var u, v, r := x * x, y * y, 2.0 * d * x * y;
    SquareNonNegative(x);
    SquareNonNegative(y);
    NonNegativeProduct(u, v);
    NonNegativeProduct(n, v);
    NonNegativeProduct(m, u);
    Product4(d, x, y);
    ScaleLeq(d * d, n * m, u * v);
    Associate4(d * d, u * v);
    Rearrange(n, m, u, v);
    RootOfFourfold(n * v, m * u, r);
  }

  lemma Rearrange(n: real, m: real, u: real, v: real)
    ensures (n * m) * (u * v) == (n * v) * (m * u)
  {
  }

  /** Cauchy-Schwarz for the loop's accumulators, at any length. */
  lemma {:induction false} CauchySchwarz(a: Vector, b: Vector)
    requires |a| == |b|
    ensures Times(Dot(a, b), Dot(a, b)) <= Times(Dot(a, a), Dot(b, b))
  {
    hide Dot, Times;
    if a == [] {
      DotNone();
    } else {
      var a', b', x, y := a[..|a| - 1], b[..|b| - 1], a[|a| - 1], b[|b| - 1];
      CauchySchwarz(a', b');
      DotStep(a, b);
      DotStep(a, a);
      DotStep(b, b);
      NormNonNegative(a');
      NormNonNegative(b');
      OneMore(Dot(a', b'), Dot(a', a'), Dot(b', b'), x, y, Dot(a, b), Dot(a, a), Dot(b, b));
    }
  }

  /** The inequality goes from the sums `d`, `n`, `m` to those with one more coordinate. */
  lemma OneMore(d: real, n: real, m: real, x: real, y: real, d': real, n': real, m': real)
    requires n >= 0.0 && m >= 0.0 && Times(d, d) <= Times(n, m)
    requires d' == d + Times(x, y) && n' == n + Times(x, x) && m' == m + Times(y, y)
    ensures Times(d', d') <= Times(n', m')
  {
    CrossTerm(d, n, m, x, y);
    SquareOfSum(d, x, y);
    ProductOfSums(n, m, x, y);
  }

  lemma SquareOfSum(d: real, x: real, y: real)
    ensures (d + x * y) * (d + x * y) == d * d + 2.0 * d * x * y + (x * x) * (y * y)
  {
  }

  lemma ProductOfSums(n: real, m: real, x: real, y: real)
    ensures (n + x * x) * (m + y * y) == n * m + n * (y * y) + m * (x * x) + (x * x) * (y * y)
  {
  }

  lemma QuotientBounded(d: real, r: real)
    requires r > 0.0 && -r <= d <= r
    ensures -1.0 <= Over(d, r) <= 1.0
  {
  }

  /** A number whose square is within the product of two squares, over their roots. */
  lemma RootQuotientBounded(d: real, p: real, n: real, q: real, m: real)
    requires IsRoot(p, n) && IsRoot(q, m) && Times(p, q) > 0.0 && Times(d, d) <= Times(n, m)
    ensures -1.0 <= Over(d, Times(p, q)) <= 1.0
  {
    assert (p * q) * (p * q) == (p * p) * (q * q) by { Rearrange(p, q, p, q); }
    RootMonotone(p * q, d);
    assert (-d) * (-d) == d * d;
    RootMonotone(p * q, -d);
    QuotientBounded(d, p * q);
  }

  lemma SimilarityBounded(a: Vector, b: Vector, sqrt: real -> real)
    requires |a| == |b| && HasRoot(sqrt, a) && HasRoot(sqrt, b)
    ensures -1.0 <= Similarity(a, b, sqrt) <= 1.0
  {
    hide Dot, Times, Over, IsRoot;
    if Dot(a, a) != 0.0 && Dot(b, b) != 0.0 {
      RootsPositive(sqrt(Dot(a, a)), Dot(a, a), sqrt(Dot(b, b)), Dot(b, b));
      CauchySchwarz(a, b);
      RootQuotientBounded(Dot(a, b), sqrt(Dot(a, a)), Dot(a, a), sqrt(Dot(b, b)), Dot(b, b));
    }
  }

  /** The bounds are met: a vector that is not zero is fully similar to itself. */
  lemma SelfSimilarity(a: Vector, sqrt: real -> real)
    requires HasRoot(sqrt, a) && Dot(a, a) != 0.0
    ensures Similarity(a, a, sqrt) == 1.0
  {
    hide Dot, Times, Over;
    RootsPositive(sqrt(Dot(a, a)), Dot(a, a), sqrt(Dot(a, a)), Dot(a, a));
    WholeQuotient(Dot(a, a));
  }

  lemma WholeQuotient(d: real)
    requires d != 0.0
    ensures Over(d, d) == 1.0
  {
  }

  // ------------------------------------------------------- what the product is

  function Scaled(k: real, a: Vector): (r: Vector)
    ensures |r| == |a|
  {
    if a == [] then [] else Scaled(k, a[..|a| - 1]) + [Times(k, a[|a| - 1])]
  }

  function Sum(a: Vector, b: Vector): (r: Vector)
    requires |a| == |b|
    ensures |r| == |a|
  {
    if a == [] then [] else Sum(a[..|a| - 1], b[..|b| - 1]) + [a[|a| - 1] + b[|b| - 1]]
  }

  /** The vector of length `n` that is 1 at `i` and 0 elsewhere. */
  function Unit(n: nat, i: nat): (r: Vector)
    ensures |r| == n
  {
    if n == 0 then [] else Unit(n - 1, i) + [if n - 1 == i then 1.0 else 0.0]
  }

  lemma Distributes(x: real, y: real, z: real)
    ensures Times(x, y + z) == Times(x, y) + Times(x, z) && Times(x, y) == Times(y, x) && Times(x, 1.0) == x && Times(x, 0.0) == 0.0
  {
  }

  lemma Rescales(k: real, x: real, y: real)
    ensures Times(x, Times(k, y)) == Times(k, Times(x, y))
  {
  }

  /** The dot product is symmetric and linear, and picks out the coordinates: these three
      together determine it. */
  lemma {:induction false} DotSymmetric(a: Vector, b: Vector)
    requires |a| == |b|
    ensures Dot(a, b) == Dot(b, a)
  {
    hide Times;
    if a == [] {
    } else {
      DotSymmetric(a[..|a| - 1], b[..|b| - 1]);
      Distributes(a[|a| - 1], b[|b| - 1], 0.0);
    }
  }

  lemma {:induction false} DotLinear(a: Vector, b: Vector, c: Vector, k: real)
    requires |a| == |b| == |c|
    ensures Dot(a, Sum(b, c)) == Dot(a, b) + Dot(a, c) && Dot(a, Scaled(k, b)) == Times(k, Dot(a, b))
  {
    hide Times;
    if a == [] {
      Distributes(k, 0.0, 0.0);
    } else {
      var n := |a| - 1;
      DotLinear(a[..n], b[..n], c[..n], k);
      DotStep(a, b);
      DotStep(a, c);
      DotStep(a, Sum(b, c));
      DotStep(a, Scaled(k, b));
      assert Sum(b, c)[..n] == Sum(b[..n], c[..n]) && Scaled(k, b)[..n] == Scaled(k, b[..n]);
      Distributes(a[n], b[n], c[n]);
      Distributes(k, Dot(a[..n], b[..n]), Times(a[n], b[n]));
      Rescales(k, a[n], b[n]);
      hide Dot, Sum, Scaled;
    }
  }

  lemma UnitSnoc(n: nat, i: nat)
    ensures Unit(n + 1, i)[..n] == Unit(n, i) && Unit(n + 1, i)[n] == if n == i then 1.0 else 0.0
  {
  }

  lemma {:induction false} DotUnit(a: Vector, i: nat)
    ensures Dot(a, Unit(|a|, i)) == if i < |a| then a[i] else 0.0
  {
    hide Times;
    if a == [] {
    } else {
      var n := |a| - 1;
      DotUnit(a[..n], i);
      DotStep(a, Unit(|a|, i));
      UnitSnoc(n, i);
      Distributes(a[n], 0.0, 0.0);
      hide Dot, Unit;
    }
  }

  /** The similarity is the cosine: times both lengths it is the dot product. */
  lemma SimilarityIsCosine(a: Vector, b: Vector, sqrt: real -> real)
    requires |a| == |b| && HasRoot(sqrt, a) && HasRoot(sqrt, b)
    ensures Dot(a, a) != 0.0 && Dot(b, b) != 0.0 ==>
              Times(Similarity(a, b, sqrt), Times(sqrt(Dot(a, a)), sqrt(Dot(b, b)))) == Dot(a, b)
    ensures Dot(a, a) == 0.0 || Dot(b, b) == 0.0 ==> Similarity(a, b, sqrt) == 0.0
  {
    hide Dot, Times, Over, HasRoot;
    SimilarityValue(a, b, sqrt);
    if Dot(a, a) != 0.0 && Dot(b, b) != 0.0 { BackTimes(Dot(a, b), Times(sqrt(Dot(a, a)), sqrt(Dot(b, b)))); }
  }

  lemma BackTimes(x: real, y: real)
    requires y != 0.0
    ensures Times(Over(x, y), y) == x
  {
  }
}
