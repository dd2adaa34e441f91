/** Feldman verifiable secret sharing: polynomials over Z_q, their commitments
    ("gammas") in G2, and the check of an evaluation against a commitment.

    The three loops of the implementation -- Horner's rule, the running power of
    the commitment check, and the coefficient-wise commitment -- are all tied to
    one definition, the power sum `PolyValue`. */
module Feldman {
  import opened Modular
  import opened Outcome
  import opened Groups

  /** Coefficients, lowest power first. */
  type Polynomial = seq<int>

  /** Commitments to the coefficients, lowest power first. */
  type Gammas = seq<G2>

  /** p[0] + p[1]*x + p[2]*x^2 + ..., over the integers. */
  function PolyValue(p: seq<int>, x: int): int {
    if p == [] then 0
    else PolyValue(p[..|p| - 1], x) + p[|p| - 1] * Pow(x, |p| - 1)
  }

  lemma {:induction false} PolyValueHead(p: seq<int>, x: int)
    requires p != []
    ensures PolyValue(p, x) == p[0] + x * PolyValue(p[1..], x)
  {
    var n := |p| - 1;
    if n == 0 {
      assert PolyValue(p[..0], x) == 0;
      assert PolyValue(p[1..], x) == 0;
    } else {
      PolyValueHead(p[..n], x);
      assert p[..n][1..] == p[1..][..n - 1];
      HeadStep(x, PolyValue(p[1..][..n - 1], x), p[n], Pow(x, n - 1));
    }
  }

  lemma HeadStep(x: int, v: int, a: int, c: int)
    ensures x * (v + a * c) == x * v + a * (x * c)
  {
    assert x * (a * c) == a * (x * c);
  }

  /** The value at 0 is the constant coefficient. */
  lemma PolyValueAtZero(p: seq<int>)
    requires p != []
    ensures PolyValue(p, 0) == p[0]
  {
    PolyValueHead(p, 0);
  }

  /** Congruent coefficients give congruent values. */
  lemma {:induction false} PolyValueCong(q: int, p: seq<int>, p': seq<int>, x: int)
    requires |p| == |p'| && forall i :: 0 <= i < |p| ==> Cong(q, p[i], p'[i])
    ensures Cong(q, PolyValue(p, x), PolyValue(p', x))
  {
    if p == [] {
      CongRefl(q, 0);
    } else {
      var n := |p| - 1;
      PolyValueCong(q, p[..n], p'[..n], x);
      CongScale(q, p[n], p'[n], Pow(x, n));
      CongAdd(q, PolyValue(p[..n], x), PolyValue(p'[..n], x), p[n] * Pow(x, n), p'[n] * Pow(x, n));
    }
  }

  ghost predicate ValidPolynomial(q: int, p: seq<int>) {
    p != [] && forall i :: 0 <= i < |p| ==> 0 <= p[i] < q
  }

  /** Accepts exactly the non-empty coefficient lists over 0..q-1. */
  method NewPolynomial(q: int, coefficients: seq<int>) returns (r: Result<Polynomial>)
    ensures r.Ok? <==> ValidPolynomial(q, coefficients)
    ensures r.Ok? ==> r.value == coefficients
  {
    if |coefficients| == 0 {
      return Err("no coefficients given");
    }
    for i := 0 to |coefficients|
      invariant forall j :: 0 <= j < i ==> 0 <= coefficients[j] < q
    {
      if coefficients[i] < 0 {
        return Err("coefficient is negative");
      }
      if coefficients[i] >= q {
        return Err("coefficient is too big");
      }
    }
    return Ok(coefficients);
  }

  /** One less than the number of coefficients. The source computes it in unsigned
      64 bit arithmetic, where 0 - 1 wraps around; it only ever compares it with
      another such difference or adds the one back, so the wrap is not visible. */
  function Degree(p: seq<int>): int {
    |p| - 1
  }

  function DegreeFromThreshold(threshold: nat): int {
    threshold - 1
  }

  function KeyperX(keyperIndex: int): int {
    1 + keyperIndex
  }

  predicate ValidEval(q: int, v: int) {
    0 <= v < q
  }

  /** Horner's rule computes the power sum modulo q. */
  method Eval(q: int, p: Polynomial, x: int) returns (res: int)
    requires q > 0 && p != []
    ensures Cong(q, res, PolyValue(p, x))
    ensures ValidPolynomial(q, p) ==> res == PolyValue(p, x) % q
  {
    var i := |p| - 1;
    res := p[i];
    PolyValueHead(p[i..], x);
    CongRefl(q, res);
    while i > 0
      invariant 0 <= i < |p|
      invariant Cong(q, res, PolyValue(p[i..], x))
      invariant ValidPolynomial(q, p) ==> 0 <= res < q
    {
      i := i - 1;
      PolyValueHead(p[i..], x);
      assert p[i..][1..] == p[i + 1..];
      HornerStep(q, res, PolyValue(p[i + 1..], x), x, p[i]);
      res := (res * x + p[i]) % q;
    }
    assert p[0..] == p;
    if ValidPolynomial(q, p) {
      CongMod(q, PolyValue(p, x));
      CongTrans(q, res, PolyValue(p, x), PolyValue(p, x) % q);
      CongUnique(q, res, PolyValue(p, x) % q);
    }
  }

  lemma HornerStep(q: int, res: int, v: int, x: int, c: int)
    requires q > 0 && Cong(q, res, v)
    ensures Cong(q, (res * x + c) % q, c + x * v)
  {
    CongScale(q, res, v, x);
    CongRefl(q, c);
    CongAdd(q, res * x, v * x, c, c);
    CongMod(q, res * x + c);
    CongTrans(q, (res * x + c) % q, res * x + c, c + x * v);
  }

  method EvalForKeyper(q: int, p: Polynomial, keyperIndex: int) returns (res: int)
    requires q > 0 && p != []
    ensures Cong(q, res, PolyValue(p, KeyperX(keyperIndex)))
    ensures ValidPolynomial(q, p) ==> res == PolyValue(p, KeyperX(keyperIndex)) % q
  {
    res := Eval(q, p, KeyperX(keyperIndex));
  }

  /** The commitment to p: one group element per coefficient. */
  ghost predicate CommitsTo(q: int, g: Gammas, p: Polynomial)
    requires q > 0
  {
    |g| == |p| && forall i :: 0 <= i < |p| ==> g[i] == BaseMult(q, p[i])
  }

  method ComputeGammas(q: int, p: Polynomial) returns (g: Gammas)
    requires q > 0
    ensures CommitsTo(q, g, p)
  {
    g := [];
    for i := 0 to |p|
      invariant CommitsTo(q, g, p[..i])
    {
      g := g + [BaseMult(q, p[i])];
    }
    assert p[..|p|] == p;
  }

  method ZeroGammas(degree: int) returns (g: Gammas)
    requires degree >= -1
    ensures |g| == degree + 1
    ensures forall i :: 0 <= i < |g| ==> g[i] == ZERO
  {
    g := [];
    for i := 0 to degree + 1
      invariant |g| == i && forall j :: 0 <= j < i ==> g[j] == ZERO
    {
      g := g + [ZERO];
    }
  }

  /** The committed value at x: the running-power loop computes the power sum of
      the committed exponents. */
  method Pi(q: int, g: Gammas, xi: int) returns (res: G2)
    requires q > 0
    ensures res == PolyValue(g, xi) % q
  {
    var xiToJ := 1;
    res := ZERO;
    PiStart(q, g, xi);
    for j := 0 to |g|
      invariant PiInvariant(q, g, xi, j, xiToJ, res)
    {
      PiStep(q, g, xi, j, xiToJ, res);
      res := Add(q, res, ScalarMult(q, g[j], xiToJ));
      xiToJ := Times(q, xiToJ, xi);
    }
    PiEnd(q, g, xi, xiToJ, res);
  }

  ghost predicate PiInvariant(q: int, g: Gammas, xi: int, j: nat, xiToJ: int, res: int)
    requires j <= |g|
  {
    && Cong(q, xiToJ, Pow(xi, j))
    && Cong(q, res, PolyValue(g[..j], xi))
    && 0 <= res < q
  }

  lemma PiStart(q: int, g: Gammas, xi: int)
    requires q > 0
    ensures PiInvariant(q, g, xi, 0, 1, 0)
  {
    CongRefl(q, 0);
    CongRefl(q, 1);
  }

  lemma {:induction false} PiStep(q: int, g: Gammas, xi: int, j: nat, xiToJ: int, res: int)
    requires q > 0 && j < |g| && PiInvariant(q, g, xi, j, xiToJ, res)
    ensures PiInvariant(q, g, xi, j + 1, Times(q, xiToJ, xi), Add(q, res, ScalarMult(q, g[j], xiToJ)))
  {
    assert g[..j + 1][..j] == g[..j];
    var v, pow, p := PolyValue(g[..j], xi), Pow(xi, j), ScalarMult(q, g[j], xiToJ);
    CongScale(q, xiToJ, pow, g[j]);
    CongMod(q, g[j] * xiToJ);
    CongTrans(q, p, g[j] * xiToJ, g[j] * pow);
    CongAdd(q, res, v, p, g[j] * pow);
    CongMod(q, res + p);
    CongTrans(q, Add(q, res, p), res + p, v + g[j] * pow);
    CongScale(q, xiToJ, pow, xi);
    CongMod(q, xiToJ * xi);
    CongTrans(q, Times(q, xiToJ, xi), xiToJ * xi, xi * pow);
  }

  lemma {:induction false} PiEnd(q: int, g: Gammas, xi: int, xiToJ: int, res: int)
    requires q > 0 && PiInvariant(q, g, xi, |g|, xiToJ, res)
    ensures res == PolyValue(g, xi) % q
  {
    assert g[..|g|] == g;
    ReducedIsMod(q, res, PolyValue(g, xi));
  }

  /** What the check of an evaluation decides. */
  ghost predicate Verifies(q: int, keyperIndex: int, polyEval: int, g: Gammas, threshold: nat)
    requires q > 0
  {
    && Degree(g) == DegreeFromThreshold(threshold)
    && Cong(q, PolyValue(g, KeyperX(keyperIndex)), polyEval)
  }

  method VerifyPolyEval(q: int, keyperIndex: int, polyEval: int, g: Gammas, threshold: nat)
      returns (ok: bool)
    requires q > 0
    ensures ok <==> Verifies(q, keyperIndex, polyEval, g, threshold)
  {
    if Degree(g) != DegreeFromThreshold(threshold) {
      return false;
    }
    var rhs := BaseMult(q, polyEval);
    var lhs := Pi(q, g, KeyperX(keyperIndex));
    CongIffMod(q, PolyValue(g, KeyperX(keyperIndex)), polyEval);
    return lhs == rhs;
  }

  /** A commitment determines its polynomial's values. */
  lemma CommitmentValue(q: int, g: Gammas, p: Polynomial, x: int)
    requires q > 0 && CommitsTo(q, g, p)
    ensures Cong(q, PolyValue(g, x), PolyValue(p, x))
  {
    forall i | 0 <= i < |p|
      ensures Cong(q, g[i], p[i])
    {
      CongMod(q, p[i]);
    }
    PolyValueCong(q, g, p, x);
  }

  /** Feldman verification is exact: against the commitment of a polynomial with
      `threshold` coefficients, keyper i's value v is accepted if and only if it
      is congruent to the polynomial's value at i + 1. */
  lemma FeldmanExact(q: int, p: Polynomial, g: Gammas, threshold: nat, keyperIndex: int, v: int)
    requires q > 0 && CommitsTo(q, g, p) && |p| == threshold
    ensures Verifies(q, keyperIndex, v, g, threshold) <==> Cong(q, v, PolyValue(p, KeyperX(keyperIndex)))
  {
    var x := KeyperX(keyperIndex);
    CommitmentValue(q, g, p, x);
    if Cong(q, PolyValue(g, x), v) {
      CongSym(q, PolyValue(g, x), v);
      CongTrans(q, v, PolyValue(g, x), PolyValue(p, x));
    }
    if Cong(q, v, PolyValue(p, x)) {
      CongSym(q, v, PolyValue(p, x));
      CongTrans(q, PolyValue(g, x), PolyValue(p, x), v);
    }
  }
}
