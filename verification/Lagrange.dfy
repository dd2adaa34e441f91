/** Lagrange interpolation at 0 over Z_q, with the coefficients exactly as the
    implementation computes them: Fermat inverses of the differences of the
    keypers' x values.

    The proof needs no theory of polynomial division. Removing one point c from
    the point set turns a sum weighted by (x - x_c) into the sum over the smaller
    point set (`OffsetSum`). From two such removals the weights add up to 1
    (`WeightsSumToOne`), and induction over the coefficients does the rest
    (`Interpolation`). */
module Lagrange {
  import opened Modular
  import opened Feldman

  // ----- the coefficients

  function Invert(q: int, x: int): int
    requires q >= 2
  {
    Pow(x, q - 2) % q
  }

  /** The Fermat inverse is a true inverse of every nonzero residue. */
  lemma InvertCorrect(q: int, x: int)
    requires Prime(q) && !Cong(q, x, 0)
    ensures Cong(q, x * Invert(q, x), 1)
  {
    Fermat(q, x);
    CongMod(q, Pow(x, q - 2));
    CongScale(q, Invert(q, x), Pow(x, q - 2), x);
    CongTrans(q, x * Invert(q, x), Pow(x, q - 1), 1);
  }

  function Factor(q: int, k: int, keyperIndex: int): int
    requires q >= 2
  {
    var xj := KeyperX(keyperIndex);
    var xk := KeyperX(k);
    var dx := (xk - xj) % q;
    Times(q, xk, Invert(q, dx))
  }

  /** Keyper indices whose x values are distinct and nonzero modulo q. */
  ghost predicate ValidPoints(q: int, xs: seq<int>) {
    && (forall i :: 0 <= i < |xs| ==> 0 <= xs[i] && KeyperX(xs[i]) < q)
    && (forall i, j :: 0 <= i < j < |xs| ==> xs[i] != xs[j])
  }

  lemma FactorCorrect(q: int, k: int, i: int)
    requires Prime(q) && k != i && 0 <= k && 0 <= i && KeyperX(k) < q && KeyperX(i) < q
    ensures Cong(q, Factor(q, k, i) * (KeyperX(i) - KeyperX(k)), -KeyperX(k))
    ensures !Cong(q, KeyperX(k) - KeyperX(i), 0)
  {
    var d := KeyperX(k) - KeyperX(i);
    var dx := d % q;
    if Cong(q, d, 0) { SmallMultipleIsZero(q, d - 0); }
    CongMod(q, d);
    if Cong(q, dx, 0) { CongTrans(q, d, dx, 0); }
    InvertCorrect(q, dx);
    CongMod(q, KeyperX(k) * Invert(q, dx));
    InverseTimes(q, KeyperX(k), KeyperX(i), dx, Invert(q, dx), Factor(q, k, i));
  }

  lemma InverseTimes(q: int, xk: int, xi: int, dx: int, inv: int, t: int)
    requires Cong(q, dx, xk - xi) && Cong(q, dx * inv, 1) && Cong(q, t, xk * inv)
    ensures Cong(q, t * (xi - xk), -xk)
  {
    var d := xk - xi;
    CongScale(q, dx, d, inv);
    CongSym(q, dx * inv, d * inv);
    CongTrans(q, d * inv, dx * inv, 1);
    CongScale(q, d * inv, 1, -xk);
    CongScale(q, t, xk * inv, -d);
    assert (xk * inv) * (-d) == (-xk) * (d * inv);
    CongTrans(q, t * (-d), (-xk) * (d * inv), -xk);
  }

  /** The product of all factors, before reduction. */
  function Weight(q: int, points: seq<int>, i: int): int
    requires q >= 2
  {
    if points == [] then 1
    else
      var n := |points| - 1;
      var w := Weight(q, points[..n], i);
      if points[n] == i then w else w * Factor(q, points[n], i)
  }

  /** The loop multiplies up the factors of all other keypers, modulo q. */
  method LagrangeCoefficient(q: int, keyperIndex: int, keyperIndices: seq<int>) returns (lambda: int)
    requires q >= 2
    ensures lambda == Weight(q, keyperIndices, keyperIndex) % q
  {
    lambda := 1;
    CongRefl(q, 1);
    for j := 0 to |keyperIndices|
      invariant CoefficientInvariant(q, keyperIndices, keyperIndex, j, lambda)
    {
      var k := keyperIndices[j];
      CoefficientStep(q, keyperIndices, keyperIndex, j, lambda);
      if k == keyperIndex {
        continue;
      }
      var lambdaK := Factor(q, k, keyperIndex);
      lambda := Times(q, lambda, lambdaK);
    }
    CoefficientEnd(q, keyperIndices, keyperIndex, lambda);
  }

  ghost predicate CoefficientInvariant(q: int, points: seq<int>, i: int, j: nat, lambda: int)
    requires q >= 2 && j <= |points|
  {
    0 <= lambda < q && Cong(q, lambda, Weight(q, points[..j], i))
  }

  lemma {:induction false} CoefficientStep(q: int, points: seq<int>, i: int, j: nat, lambda: int)
    requires q >= 2 && j < |points| && CoefficientInvariant(q, points, i, j, lambda)
    ensures points[j] == i ==> CoefficientInvariant(q, points, i, j + 1, lambda)
    ensures points[j] != i ==>
      CoefficientInvariant(q, points, i, j + 1, Times(q, lambda, Factor(q, points[j], i)))
  {
    assert points[..j + 1][..j] == points[..j];
    ProductStep(q, lambda, Weight(q, points[..j], i), Factor(q, points[j], i));
  }

  lemma {:induction false} CoefficientEnd(q: int, points: seq<int>, i: int, lambda: int)
    requires q >= 2 && CoefficientInvariant(q, points, i, |points|, lambda)
    ensures lambda == Weight(q, points, i) % q
  {
    assert points[..|points|] == points;
    ReducedIsMod(q, lambda, Weight(q, points, i));
  }

  lemma ProductStep(q: int, a: int, w: int, f: int)
    requires q > 0 && Cong(q, a, w)
    ensures Cong(q, Times(q, a, f), w * f) && 0 <= Times(q, a, f) < q
  {
    CongMod(q, a * f);
    CongScale(q, a, w, f);
    CongTrans(q, Times(q, a, f), a * f, w * f);
  }

  // ----- weighted sums

  /** The sum of f(i) over the keypers i in xs, weighted for the point set `points`. */
  ghost function Sum(q: int, points: seq<int>, xs: seq<int>, f: int -> int): int
    requires q >= 2
  {
    if xs == [] then 0
    else var n := |xs| - 1; Sum(q, points, xs[..n], f) + Weight(q, points, xs[n]) * f(xs[n])
  }

  lemma {:induction false} SumConcat(q: int, points: seq<int>, a: seq<int>, b: seq<int>, f: int -> int)
    requires q >= 2
    ensures Sum(q, points, a + b, f) == Sum(q, points, a, f) + Sum(q, points, b, f)
  {
    if b == [] {
      assert a + b == a;
    } else {
      var n := |b| - 1;
      assert (a + b)[..|a + b| - 1] == a + b[..n];
      SumConcat(q, points, a, b[..n], f);
    }
  }

  /** Term-wise congruence, up to a common constant c, carries over to the sums. */
  lemma {:induction false} SumCong(q: int, points: seq<int>, points': seq<int>, xs: seq<int>,
                                   f: int -> int, g: int -> int, c: int)
    requires q >= 2
    requires forall j :: 0 <= j < |xs| ==>
      Cong(q, Weight(q, points, xs[j]) * f(xs[j]), c * (Weight(q, points', xs[j]) * g(xs[j])))
    ensures Cong(q, Sum(q, points, xs, f), c * Sum(q, points', xs, g))
  {
    if xs == [] {
      assert c * Sum(q, points', xs, g) == 0;
      CongRefl(q, 0);
    } else {
      var n := |xs| - 1;
      SumCong(q, points, points', xs[..n], f, g, c);
      CongAddScaled(q, Sum(q, points, xs[..n], f), Sum(q, points', xs[..n], g),
                    Weight(q, points, xs[n]) * f(xs[n]), Weight(q, points', xs[n]) * g(xs[n]), c);
    }
  }

  lemma CongAddScaled(q: int, a: int, a': int, b: int, b': int, c: int)
    requires Cong(q, a, c * a') && Cong(q, b, c * b')
    ensures Cong(q, a + b, c * (a' + b'))
  {
    CongAdd(q, a, c * a', b, c * b');
    assert c * a' + c * b' == c * (a' + b');
  }

  lemma {:induction false} SumLinear(q: int, points: seq<int>, xs: seq<int>,
                                     h: int -> int, f: int -> int, g: int -> int, a: int, b: int)
    requires q >= 2
    requires forall j :: 0 <= j < |xs| ==> h(xs[j]) == a * f(xs[j]) + b * g(xs[j])
    ensures Sum(q, points, xs, h) == a * Sum(q, points, xs, f) + b * Sum(q, points, xs, g)
  {
    if xs != [] {
      var n := |xs| - 1;
      SumLinear(q, points, xs[..n], h, f, g, a, b);
      LinearStep(Weight(q, points, xs[n]), a, b, f(xs[n]), g(xs[n]),
                 Sum(q, points, xs[..n], f), Sum(q, points, xs[..n], g));
    }
  }

  lemma LinearStep(w: int, a: int, b: int, f: int, g: int, s: int, t: int)
    ensures (a * s + b * t) + w * (a * f + b * g) == a * (s + w * f) + b * (t + w * g)
  {
    assert w * (a * f + b * g) == a * (w * f) + b * (w * g);
  }

  // ----- removing a point

  lemma {:induction false} WeightRemove(q: int, a: seq<int>, c: int, b: seq<int>, i: int)
    requires q >= 2
    ensures Weight(q, a + [c] + b, i) == Weight(q, a + b, i) * (if c == i then 1 else Factor(q, c, i))
  {
    if b == [] {
      assert a + [c] + b == a + [c] && a + b == a;
      assert (a + [c])[..|a|] == a;
    } else {
      var n := |b| - 1;
      assert (a + [c] + b)[..|a + [c] + b| - 1] == a + [c] + b[..n];
      assert (a + b)[..|a + b| - 1] == a + b[..n];
      WeightRemove(q, a, c, b[..n], i);
      SwapFactors(Weight(q, a + b[..n], i), if c == i then 1 else Factor(q, c, i), Factor(q, b[n], i));
    }
  }

  lemma SwapFactors(w: int, e: int, f: int)
    ensures (w * e) * f == (w * f) * e
  {
  }

  lemma RemovedPointsValid(q: int, a: seq<int>, c: int, b: seq<int>)
    requires ValidPoints(q, a + [c] + b)
    ensures ValidPoints(q, a + b)
    ensures forall i :: 0 <= i < |a + b| ==> (a + b)[i] != c
    ensures 0 <= c && KeyperX(c) < q
  {
    var xs, ys := a + [c] + b, a + b;
    assert xs[|a|] == c;
    forall i | 0 <= i < |ys|
      ensures ys[i] == xs[if i < |a| then i else i + 1]
    {
    }
  }

  /** Summing with the extra factor (x - x_c) is summing over the points without
      c, times -x_c. */
  lemma {:induction false} OffsetSum(q: int, a: seq<int>, c: int, b: seq<int>, f: int -> int, g: int -> int)
    requires Prime(q) && ValidPoints(q, a + [c] + b)
    requires forall i :: f(i) == (KeyperX(i) - KeyperX(c)) * g(i)
    ensures Cong(q, Sum(q, a + [c] + b, a + [c] + b, f), -KeyperX(c) * Sum(q, a + b, a + b, g))
  {
    var all, rest := a + [c] + b, a + b;
    RemovedPointsValid(q, a, c, b);
    forall j | 0 <= j < |rest|
      ensures Cong(q, Weight(q, all, rest[j]) * f(rest[j]), -KeyperX(c) * (Weight(q, rest, rest[j]) * g(rest[j])))
    {
      WeightRemove(q, a, c, b, rest[j]);
      OffsetTerm(q, c, rest[j], Weight(q, rest, rest[j]), g(rest[j]));
    }
    SumCong(q, all, rest, rest, f, g, -KeyperX(c));
    SumConcat(q, all, a + [c], b, f);
    SumConcat(q, all, a, [c], f);
    SumConcat(q, all, a, b, f);
    SumSingle(q, all, c, f);
  }

  lemma SumSingle(q: int, points: seq<int>, c: int, f: int -> int)
    requires q >= 2
    ensures Sum(q, points, [c], f) == Weight(q, points, c) * f(c)
  {
    assert [c][..0] == [];
  }

  lemma OffsetTerm(q: int, c: int, i: int, w: int, g: int)
    requires Prime(q) && c != i && 0 <= c && 0 <= i && KeyperX(c) < q && KeyperX(i) < q
    ensures Cong(q, (w * Factor(q, c, i)) * ((KeyperX(i) - KeyperX(c)) * g), -KeyperX(c) * (w * g))
  {
    FactorCorrect(q, c, i);
    var e, d := Factor(q, c, i), KeyperX(i) - KeyperX(c);
    CongScale(q, e * d, -KeyperX(c), w * g);
    assert (w * e) * (d * g) == (e * d) * (w * g);
  }

  // ----- the weights add up to one

  lemma {:induction false} WeightsSumToOne(q: int, xs: seq<int>, one: int -> int)
    requires Prime(q) && ValidPoints(q, xs) && |xs| >= 1
    requires forall i :: one(i) == 1
    ensures Cong(q, Sum(q, xs, xs, one), 1)
    decreases |xs|
  {
    if |xs| == 1 {
      var c := xs[0];
      assert xs == [c] && [c][..0] == [];
      SumSingle(q, xs, c, one);
      assert Weight(q, xs, c) == 1;
      CongRefl(q, 1);
    } else {
      var c, d := xs[0], xs[1];
      assert xs == [] + [c] + xs[1..] && xs == [c] + [d] + xs[2..];
      WeightsWithout(q, xs, [], c, xs[1..], one);
      WeightsWithout(q, xs, [c], d, xs[2..], one);
      FactorCorrect(q, c, d);
      var s, m := Sum(q, xs, xs, one), Sum(q, xs, xs, i => KeyperX(i));
      OneFromTwoOffsets(q, m, s, KeyperX(c), KeyperX(d));
    }
  }

  lemma {:induction false} WeightsWithout(q: int, xs: seq<int>, a: seq<int>, c: int, b: seq<int>, one: int -> int)
    requires Prime(q) && ValidPoints(q, xs) && xs == a + [c] + b && |xs| >= 2
    requires forall i :: one(i) == 1
    ensures Cong(q, Sum(q, xs, xs, i => KeyperX(i)) - KeyperX(c) * Sum(q, xs, xs, one), -KeyperX(c))
    decreases |xs|, 0
  {
    var id, h := i => KeyperX(i), i => (KeyperX(i) - KeyperX(c)) * one(i);
    RemovedPointsValid(q, a, c, b);
    OffsetSum(q, a, c, b, h, one);
    WeightsSumToOne(q, a + b, one);
    forall j | 0 <= j < |xs|
      ensures h(xs[j]) == 1 * id(xs[j]) + -KeyperX(c) * one(xs[j])
    {
      ShiftByOne(KeyperX(xs[j]), KeyperX(c), one(xs[j]));
    }
    SumLinear(q, xs, xs, h, id, one, 1, -KeyperX(c));
    OffsetOfWeights(q, Sum(q, xs, xs, h), Sum(q, xs, xs, id), Sum(q, xs, xs, one),
                    Sum(q, a + b, a + b, one), KeyperX(c));
  }

  lemma ShiftByOne(x: int, xc: int, one: int)
    requires one == 1
    ensures (x - xc) * one == 1 * x + -xc * one
  {
  }

  lemma OffsetOfWeights(q: int, h: int, m: int, s: int, rest: int, xc: int)
    requires h == 1 * m + -xc * s && Cong(q, h, -xc * rest) && Cong(q, rest, 1)
    ensures Cong(q, m - xc * s, -xc)
  {
    CongScale(q, rest, 1, -xc);
    CongTrans(q, h, -xc * rest, -xc);
  }

  lemma OneFromTwoOffsets(q: int, m: int, s: int, xc: int, xd: int)
    requires Prime(q) && Cong(q, m - xc * s, -xc) && Cong(q, m - xd * s, -xd)
    requires !Cong(q, xc - xd, 0)
    ensures Cong(q, s, 1)
  {
    CongSub(q, m - xd * s, -xd, m - xc * s, -xc);
    assert (m - xd * s) - (m - xc * s) == (xc - xd) * s;
    assert -xd - (-xc) == (xc - xd) * 1;
    Cancel(q, xc - xd, s, 1);
  }

  // ----- interpolation at zero

  /** Lagrange reconstruction: for any distinct points and any polynomial with at
      most as many coefficients as there are points, the weighted sum of the
      values is the value at 0. */
  lemma {:induction false} Interpolation(q: int, xs: seq<int>, p: seq<int>, f: int -> int)
    requires Prime(q) && ValidPoints(q, xs) && |p| <= |xs|
    requires forall i :: f(i) == PolyValue(p, KeyperX(i))
    ensures Cong(q, Sum(q, xs, xs, f), PolyValue(p, 0))
    decreases |p|
  {
    if p == [] {
      SumLinear(q, xs, xs, f, f, f, 0, 0);
      CongRefl(q, 0);
    } else {
      var r := p[1..];
      var g, xg := i => PolyValue(r, KeyperX(i)), i => KeyperX(i) * PolyValue(r, KeyperX(i));
      // the weighted sums of r over all points and over all but the first, by induction
      Interpolation(q, xs, r, g);
      assert xs == [] + [xs[0]] + xs[1..] && [] + xs[1..] == xs[1..];
      RemovedPointsValid(q, [], xs[0], xs[1..]);
      Interpolation(q, xs[1..], r, g);
      TailVanishes(q, xs, g, xg, PolyValue(r, 0));
      HeadRemains(q, xs, p, f, xg);
    }
  }

  /** The part x * r(x) contributes nothing to the value at 0. */
  lemma {:induction false} TailVanishes(q: int, xs: seq<int>, g: int -> int, xg: int -> int, r0: int)
    requires Prime(q) && ValidPoints(q, xs) && xs != []
    requires forall i :: xg(i) == KeyperX(i) * g(i)
    requires Cong(q, Sum(q, xs, xs, g), r0) && Cong(q, Sum(q, xs[1..], xs[1..], g), r0)
    ensures Cong(q, Sum(q, xs, xs, xg), 0)
  {
    var c, b := xs[0], xs[1..];
    var h := i => (KeyperX(i) - KeyperX(c)) * g(i);
    assert xs == [] + [c] + b && [] + b == b;
    OffsetSum(q, [], c, b, h, g);
    forall j | 0 <= j < |xs|
      ensures xg(xs[j]) == 1 * h(xs[j]) + KeyperX(c) * g(xs[j])
    {
      ShiftTerm(KeyperX(xs[j]), KeyperX(c), g(xs[j]));
    }
    SumLinear(q, xs, xs, xg, h, g, 1, KeyperX(c));
    OffsetsCancel(q, Sum(q, xs, xs, xg), Sum(q, xs, xs, h), Sum(q, xs, xs, g), Sum(q, b, b, g), KeyperX(c), r0);
  }

  /** p(x) = p[0] + x * r(x), and the weights of the constant add up to one. */
  lemma {:induction false} HeadRemains(q: int, xs: seq<int>, p: seq<int>, f: int -> int, xg: int -> int)
    requires Prime(q) && ValidPoints(q, xs) && xs != [] && p != []
    requires forall i :: f(i) == PolyValue(p, KeyperX(i))
    requires forall i :: xg(i) == KeyperX(i) * PolyValue(p[1..], KeyperX(i))
    requires Cong(q, Sum(q, xs, xs, xg), 0)
    ensures Cong(q, Sum(q, xs, xs, f), PolyValue(p, 0))
  {
    var one := (i: int) => 1;
    WeightsSumToOne(q, xs, one);
    forall j | 0 <= j < |xs|
      ensures f(xs[j]) == p[0] * one(xs[j]) + 1 * xg(xs[j])
    {
      PolyValueHead(p, KeyperX(xs[j]));
    }
    SumLinear(q, xs, xs, f, one, xg, p[0], 1);
    PolyValueAtZero(p);
    HeadOnly(q, p[0], Sum(q, xs, xs, one), Sum(q, xs, xs, xg));
  }

  lemma ShiftTerm(x: int, xc: int, g: int)
    ensures x * g == 1 * ((x - xc) * g) + xc * g
  {
  }

  lemma OffsetsCancel(q: int, total: int, h: int, g: int, gb: int, xc: int, r0: int)
    requires total == 1 * h + xc * g
    requires Cong(q, h, -xc * gb) && Cong(q, g, r0) && Cong(q, gb, r0)
    ensures Cong(q, total, 0)
  {
    CongScale(q, gb, r0, -xc);
    CongTrans(q, h, -xc * gb, -xc * r0);
    CongScale(q, g, r0, xc);
    CongAdd(q, h, -xc * r0, xc * g, xc * r0);
  }

  lemma HeadOnly(q: int, p0: int, ones: int, tail: int)
    requires Cong(q, ones, 1) && Cong(q, tail, 0)
    ensures Cong(q, p0 * ones + 1 * tail, p0)
  {
    CongScale(q, ones, 1, p0);
    CongAdd(q, p0 * ones, p0, tail, 0);
  }
}
