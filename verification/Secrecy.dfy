/** What fewer keypers than the threshold know: nothing. Whatever their shares are, every
    secret fits them.

    The witness is the shared polynomial plus a multiple of one that vanishes at the
    keypers' points but not at 0. */
module Secrecy {
  import opened Modular
  import opened Feldman
  import opened Lagrange
  import opened Keys

  function Scaled(p: seq<int>, c: int): (r: seq<int>)
    ensures |r| == |p| && forall i :: 0 <= i < |p| ==> r[i] == c * p[i]
  {
    seq(|p|, i requires 0 <= i < |p| => c * p[i])
  }

  lemma {:induction false} ScaledValue(p: seq<int>, c: int, x: int)
    ensures PolyValue(Scaled(p, c), x) == c * PolyValue(p, x)
  {
    if p != [] {
      var n := |p| - 1;
      assert Scaled(p, c)[..n] == Scaled(p[..n], c);
      ScaledValue(p[..n], c, x);
      Distribute(c, PolyValue(p[..n], x), p[n], Pow(x, n));
    }
  }

  lemma Distribute(c: int, v: int, a: int, w: int)
    ensures c * (v + a * w) == c * v + (c * a) * w
  {
  }

  function Zeros(n: nat): (z: seq<int>)
    ensures |z| == n && forall i :: 0 <= i < n ==> z[i] == 0
  {
    seq(n, _ => 0)
  }

  /** Leading zeros do not change the value. */
  lemma {:induction false} PaddedValue(p: seq<int>, n: nat, x: int)
    ensures PolyValue(p + Zeros(n), x) == PolyValue(p, x)
  {
    if n == 0 {
      assert p + Zeros(0) == p;
    } else {
      var r := p + Zeros(n);
      assert r[..|r| - 1] == p + Zeros(n - 1);
      PaddedValue(p, n - 1, x);
      assert 0 * Pow(x, |r| - 1) == 0;
    }
  }

  /** The product of the differences to all points. */
  function Gap(xs: seq<int>, x: int): int {
    if xs == [] then 1 else Gap(xs[..|xs| - 1], x) * (x - KeyperX(xs[|xs| - 1]))
  }

  /** The polynomial that vanishes exactly at the points. */
  function Vanishing(xs: seq<int>): (p: Polynomial)
    ensures |p| == |xs| + 1
  {
    if xs == [] then [1]
    else
      var p := Vanishing(xs[..|xs| - 1]);
      AddCoefficients([0] + p, Scaled(p + Zeros(1), -KeyperX(xs[|xs| - 1])))
  }

  lemma TimesX(p: seq<int>, x: int)
    ensures PolyValue([0] + p, x) == x * PolyValue(p, x)
  {
    PolyValueHead([0] + p, x);
    assert ([0] + p)[1..] == p;
  }

  lemma Times(v: int, x: int, a: int)
    ensures x * v + -a * v == v * (x - a)
  {
  }

  lemma {:induction false} VanishingValue(xs: seq<int>, x: int)
    ensures PolyValue(Vanishing(xs), x) == Gap(xs, x)
  {
    if xs == [] {
      assert [1][..0] == [];
      assert PolyValue([], x) == 0 && Pow(x, 0) == 1;
    } else {
      var init, a := xs[..|xs| - 1], KeyperX(xs[|xs| - 1]);
      var p := Vanishing(init);
      VanishingValue(init, x);
      TimesX(p, x);
      PaddedValue(p, 1, x);
      ScaledValue(p + Zeros(1), -a, x);
      AddCoefficientsValue([0] + p, Scaled(p + Zeros(1), -a), x);
      Times(PolyValue(p, x), x, a);
    }
  }

  lemma {:induction false} GapAtPoint(xs: seq<int>, i: nat)
    requires i < |xs|
    ensures Gap(xs, KeyperX(xs[i])) == 0
  {
    if i < |xs| - 1 {
      GapAtPoint(xs[..|xs| - 1], i);
    }
  }

  /** No keyper's point is 0, so neither is the product at 0. */
  lemma {:induction false} GapAtZero(q: int, xs: seq<int>)
    requires Prime(q) && forall i :: 0 <= i < |xs| ==> 0 <= xs[i] && KeyperX(xs[i]) < q
    ensures !Cong(q, Gap(xs, 0), 0)
  {
    if xs == [] {
      if Cong(q, 1, 0) { SmallMultipleIsZero(q, 1); }
    } else {
      var g, a := Gap(xs[..|xs| - 1], 0), KeyperX(xs[|xs| - 1]);
      GapAtZero(q, xs[..|xs| - 1]);
      if Cong(q, g * (0 - a), 0) {
        assert g * 0 == 0;
        Cancel(q, g, 0 - a, 0);
        NegationNonzero(q, a);
      }
    }
  }

  lemma NegationNonzero(q: int, a: int)
    requires 0 < a < q
    ensures !Cong(q, 0 - a, 0)
  {
    if Cong(q, 0 - a, 0) { SmallMultipleIsZero(q, 0 - a); }
  }

  // ----- any secret fits

  function Reduced(q: int, p: seq<int>): (r: seq<int>)
    requires q > 0
    ensures |r| == |p| && forall i :: 0 <= i < |p| ==> r[i] == p[i] % q
  {
    seq(|p|, i requires 0 <= i < |p| => p[i] % q)
  }

  lemma ReducedValue(q: int, p: seq<int>, x: int)
    requires q > 0
    ensures Cong(q, PolyValue(Reduced(q, p), x), PolyValue(p, x))
  {
    forall i | 0 <= i < |p|
      ensures Cong(q, Reduced(q, p)[i], p[i])
    {
      CongMod(q, p[i]);
    }
    PolyValueCong(q, Reduced(q, p), p, x);
  }

  /** The polynomial moved by c times the vanishing one. */
  function Moved(q: int, F: Polynomial, xs: seq<int>, c: int): (F': Polynomial)
    requires q > 0 && |xs| < |F|
    ensures |F'| == |F| && forall i :: 0 <= i < |F| ==> 0 <= F'[i] < q
  {
    Reduced(q, Sum(F, xs, c))
  }

  function Sum(F: Polynomial, xs: seq<int>, c: int): (p: seq<int>)
    requires |xs| < |F|
    ensures |p| == |F|
  {
    AddCoefficients(F, Scaled(Vanishing(xs) + Zeros(|F| - |xs| - 1), c))
  }

  lemma SumValue(F: Polynomial, xs: seq<int>, c: int, x: int)
    requires |xs| < |F|
    ensures PolyValue(Sum(F, xs, c), x) == PolyValue(F, x) + c * Gap(xs, x)
  {
    var z := Vanishing(xs) + Zeros(|F| - |xs| - 1);
    VanishingValue(xs, x);
    PaddedValue(Vanishing(xs), |F| - |xs| - 1, x);
    ScaledValue(z, c, x);
    AddCoefficientsValue(F, Scaled(z, c), x);
  }

  lemma MovedValue(q: int, F: Polynomial, xs: seq<int>, c: int, x: int)
    requires q > 0 && |xs| < |F|
    ensures Cong(q, PolyValue(Moved(q, F, xs, c), x), PolyValue(F, x) + c * Gap(xs, x))
  {
    SumValue(F, xs, c, x);
    ReducedValue(q, Sum(F, xs, c), x);
  }

  /** How far to move for a given value at 0. */
  lemma RightMove(q: int, v: int, g: int, secret: int, c: int)
    requires Prime(q) && !Cong(q, g, 0) && c == (secret - v) * Invert(q, g)
    ensures Cong(q, v + c * g, secret)
  {
    InvertCorrect(q, g);
    var inv := Invert(q, g);
    CongScale(q, g * inv, 1, secret - v);
    CongRefl(q, v);
    CongAdd(q, v, v, (g * inv) * (secret - v), 1 * (secret - v));
    Rearrange(secret - v, g, inv);
  }

  lemma Rearrange(d: int, g: int, inv: int)
    ensures (g * inv) * d == (d * inv) * g
  {
  }

  /** The polynomials agree at the keypers' points. */
  ghost predicate Agrees(q: int, F: Polynomial, F': Polynomial, xs: seq<int>) {
    forall i :: 0 <= i < |xs| ==> Cong(q, PolyValue(F', KeyperX(xs[i])), PolyValue(F, KeyperX(xs[i])))
  }

  /** Secrecy of the shares: for fewer keypers than the threshold and for every secret there
      is a polynomial with `threshold` coefficients that gives these keypers the shares they
      have, and has this secret at 0. */
  lemma SharesKeepSecret(q: int, F: Polynomial, xs: seq<int>, secret: int) returns (F': Polynomial)
    requires Prime(q) && |xs| < |F|
    requires forall i :: 0 <= i < |xs| ==> 0 <= xs[i] && KeyperX(xs[i]) < q
    ensures ValidPolynomial(q, F') && |F'| == |F|
    ensures Agrees(q, F, F', xs) && Cong(q, PolyValue(F', 0), secret)
  {
    var g, v := Gap(xs, 0), PolyValue(F, 0);
    var c := (secret - v) * Invert(q, g);
    F' := Moved(q, F, xs, c);
    GapAtZero(q, xs);
    MovedValue(q, F, xs, c, 0);
    RightMove(q, v, g, secret, c);
    CongTrans(q, PolyValue(F', 0), v + c * g, secret);
    forall i | 0 <= i < |xs|
      ensures Cong(q, PolyValue(F', KeyperX(xs[i])), PolyValue(F, KeyperX(xs[i])))
    {
      GapAtPoint(xs, i);
      MovedValue(q, F, xs, c, KeyperX(xs[i]));
      assert c * 0 == 0;
    }
  }
}
