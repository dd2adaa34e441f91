/** Eon and epoch keys: the joint key of all dealers, the epoch secret key
    shares, their verification by pairing, and their combination. */
module Keys {
  import opened Widths
  import opened Modular
  import opened Outcome
  import opened Groups
  import opened Feldman
  import opened Lagrange

  // ----- the joint polynomial of all dealers

  function SumOf(vs: seq<int>): int {
    if vs == [] then 0 else SumOf(vs[..|vs| - 1]) + vs[|vs| - 1]
  }

  /** The sum of all dealers' values at x. */
  function JointValue(gs: seq<Gammas>, x: int): int {
    if gs == [] then 0 else JointValue(gs[..|gs| - 1], x) + PolyValue(gs[|gs| - 1], x)
  }

  function AddCoefficients(a: seq<int>, b: seq<int>): (c: seq<int>)
    requires |a| == |b|
    ensures |c| == |a|
  {
    seq(|a|, i requires 0 <= i < |a| => a[i] + b[i])
  }

  /** One polynomial whose coefficients are the sums of the dealers' coefficients. */
  function JointPolynomial(gs: seq<Gammas>, t: nat): (p: Polynomial)
    requires forall d :: 0 <= d < |gs| ==> |gs[d]| == t
    ensures |p| == t
  {
    if gs == [] then seq(t, _ => 0)
    else AddCoefficients(JointPolynomial(gs[..|gs| - 1], t), gs[|gs| - 1])
  }

  lemma {:induction false} AddCoefficientsValue(a: seq<int>, b: seq<int>, x: int)
    requires |a| == |b|
    ensures PolyValue(AddCoefficients(a, b), x) == PolyValue(a, x) + PolyValue(b, x)
  {
    if a != [] {
      var n := |a| - 1;
      assert AddCoefficients(a, b)[..n] == AddCoefficients(a[..n], b[..n]);
      AddCoefficientsValue(a[..n], b[..n], x);
      assert (a[n] + b[n]) * Pow(x, n) == a[n] * Pow(x, n) + b[n] * Pow(x, n);
    }
  }

  lemma {:induction false} ZeroPolynomialValue(p: seq<int>, x: int)
    requires forall i :: 0 <= i < |p| ==> p[i] == 0
    ensures PolyValue(p, x) == 0
  {
    if p != [] {
      ZeroPolynomialValue(p[..|p| - 1], x);
    }
  }

  lemma {:induction false} JointPolynomialValue(gs: seq<Gammas>, t: nat, x: int)
    requires forall d :: 0 <= d < |gs| ==> |gs[d]| == t
    ensures JointValue(gs, x) == PolyValue(JointPolynomial(gs, t), x)
  {
    if gs == [] {
      ZeroPolynomialValue(JointPolynomial(gs, t), x);
    } else {
      var n := |gs| - 1;
      JointPolynomialValue(gs[..n], t, x);
      AddCoefficientsValue(JointPolynomial(gs[..n], t), gs[n], x);
    }
  }

  // ----- eon keys

  method ComputeEonSecretKeyShare(q: int, polyEvals: seq<int>) returns (res: int)
    requires q > 0
    ensures res == SumOf(polyEvals) % q
  {
    res := 0;
    CongRefl(q, 0);
    for i := 0 to |polyEvals|
      invariant 0 <= res < q && Cong(q, res, SumOf(polyEvals[..i]))
    {
      assert polyEvals[..i + 1][..i] == polyEvals[..i];
      AddStep(q, res, SumOf(polyEvals[..i]), polyEvals[i], polyEvals[i]) by { CongRefl(q, polyEvals[i]); }
      res := (res + polyEvals[i]) % q;
    }
    assert polyEvals[..|polyEvals|] == polyEvals;
    ReducedIsMod(q, res, SumOf(polyEvals));
  }

  lemma AddStep(q: int, a: int, s: int, b: int, v: int)
    requires q > 0 && Cong(q, a, s) && Cong(q, b, v)
    ensures Cong(q, (a + b) % q, s + v) && 0 <= (a + b) % q < q
  {
    CongAdd(q, a, s, b, v);
    CongMod(q, a + b);
    CongTrans(q, (a + b) % q, a + b, s + v);
  }

  /** The loop shared by the two public key computations. */
  method SumPis(q: int, gammas: seq<Gammas>, x: int) returns (g2: G2)
    requires q > 0
    ensures g2 == JointValue(gammas, x) % q
  {
    g2 := ZERO;
    CongRefl(q, 0);
    for d := 0 to |gammas|
      invariant 0 <= g2 < q && Cong(q, g2, JointValue(gammas[..d], x))
    {
      var pi := Pi(q, gammas[d], x);
      assert gammas[..d + 1][..d] == gammas[..d];
      CongMod(q, PolyValue(gammas[d], x));
      AddStep(q, g2, JointValue(gammas[..d], x), pi, PolyValue(gammas[d], x));
      g2 := Add(q, g2, pi);
    }
    assert gammas[..|gammas|] == gammas;
    ReducedIsMod(q, g2, JointValue(gammas, x));
  }

  method ComputeEonPublicKeyShare(q: int, keyperIndex: int, gammas: seq<Gammas>) returns (share: G2)
    requires q > 0
    ensures share == JointValue(gammas, KeyperX(keyperIndex)) % q
  {
    share := SumPis(q, gammas, KeyperX(keyperIndex));
  }

  method ComputeEonPublicKey(q: int, gammas: seq<Gammas>) returns (key: G2)
    requires q > 0
    ensures key == JointValue(gammas, 0) % q
  {
    key := SumPis(q, gammas, 0);
  }

  // ----- epoch keys

  /** The id of an epoch; the source adds one to an unsigned 64 bit index. */
  function ComputeEpochID(q: int, epochIndex: nat): G1
    requires q > 0
  {
    BaseMult(q, (epochIndex + 1) % TWO_64)
  }

  /** Epochs below the last 64 bit index have ids 1, 2, 3, ... */
  lemma EpochIDIs(q: int, epochIndex: nat)
    requires q > TWO_64 && epochIndex + 1 < TWO_64
    ensures ComputeEpochID(q, epochIndex) == epochIndex + 1
  {
  }

  /** Ids of different epochs are different and none is 0, in multiples of anything that is
      not 0. */
  lemma EpochIDsDiffer(q: int, e: nat, e': nat, v: int)
    requires Prime(q) && q > TWO_64 && e + 1 < TWO_64 && e' + 1 < TWO_64 && !Cong(q, v, 0)
    ensures Cong(q, ComputeEpochID(q, e) * v, ComputeEpochID(q, e') * v) ==> e == e'
    ensures !Cong(q, ComputeEpochID(q, e) * v, 0)
  {
    EpochIDIs(q, e);
    EpochIDIs(q, e');
    MultiplesDiffer(q, e + 1, e' + 1, v);
  }

  lemma MultiplesDiffer(q: int, a: int, b: int, v: int)
    requires Prime(q) && 0 < a < q && 0 < b < q && !Cong(q, v, 0)
    ensures Cong(q, a * v, b * v) ==> a == b
    ensures !Cong(q, a * v, 0)
  {
    assert v * a == a * v && v * b == b * v && v * 0 == 0;
    if Cong(q, a * v, b * v) {
      Cancel(q, v, a, b);
      SmallMultipleIsZero(q, a - b);
    }
    if Cong(q, a * v, 0) {
      Cancel(q, v, a, 0);
      SmallMultipleIsZero(q, a);
    }
  }

  function ComputeEpochSecretKeyShare(q: int, eonSecretKeyShare: int, epochID: G1): G1
    requires q > 0
  {
    ScalarMult(q, epochID, eonSecretKeyShare)
  }

  predicate VerifyEpochSecretKeyShare(q: int, share: G1, eonPublicKeyShare: G2, epochID: G1)
    requires q > 0
  {
    PairingCheck(q, [share, Neg(q, epochID)], [BaseMult(q, 1), eonPublicKeyShare])
  }

  /** The pairing check accepts exactly the multiple of the epoch id by the
      exponent of the sender's public key share. */
  lemma VerifyShareExact(q: int, share: G1, pk: G2, id: G1)
    requires q > 0
    ensures VerifyEpochSecretKeyShare(q, share, pk, id) <==> Cong(q, share, id * pk)
  {
    var a, b := Pair(q, share, BaseMult(q, 1)), Pair(q, Neg(q, id), pk);
    PairingOfTwo(q, share, Neg(q, id), BaseMult(q, 1), pk);
    PairingTerms(q, share, pk, id, a, b);
  }

  lemma {:induction false} PairingOfTwo(q: int, a1: G1, a2: G1, b1: G2, b2: G2)
    requires q > 0
    ensures PairingProduct(q, [a1, a2], [b1, b2]) == (((0 + Pair(q, a1, b1)) % q) + Pair(q, a2, b2)) % q
  {
    assert [a1, a2][..1] == [a1] && [b1, b2][..1] == [b1];
    assert [a1][..0] == [] && [b1][..0] == [];
    assert PairingProduct(q, [a1], [b1]) == (PairingProduct(q, [], []) + Pair(q, a1, b1)) % q;
  }

  lemma PairingTerms(q: int, share: int, pk: int, id: int, a: int, b: int)
    requires q > 0 && a == (share * (1 % q)) % q && b == (((-id) % q) * pk) % q
    ensures (((0 + a) % q) + b) % q == 0 <==> Cong(q, share, id * pk)
  {
    CongMod(q, 1);
    CongScale(q, 1 % q, 1, share);
    CongMod(q, share * (1 % q));
    CongTrans(q, a, share * (1 % q), share);
    CongMod(q, -id);
    CongScale(q, (-id) % q, -id, pk);
    CongMod(q, ((-id) % q) * pk);
    CongTrans(q, b, ((-id) % q) * pk, (-id) * pk);
    CongMod(q, a);
    CongTrans(q, (0 + a) % q, a, share);
    AddStep(q, (0 + a) % q, share, b, (-id) * pk);
    var total := (((0 + a) % q) + b) % q;
    assert (-id) * pk == -(id * pk);
    assert Cong(q, total, share - id * pk);
    if total == 0 {
      CongSym(q, 0, share - id * pk);
      CongRefl(q, id * pk);
      CongAdd(q, share - id * pk, 0, id * pk, id * pk);
    }
    if Cong(q, share, id * pk) {
      CongRefl(q, id * pk);
      CongSub(q, share, id * pk, id * pk, id * pk);
      CongTrans(q, total, share - id * pk, 0);
      CongUnique(q, total, 0);
    }
  }

  /** The weighted sum of the shares, before reduction. */
  function Combined(q: int, points: seq<int>, xs: seq<int>, shares: seq<G1>): int
    requires q >= 2 && |xs| == |shares|
  {
    if xs == [] then 0
    else
      var n := |xs| - 1;
      Combined(q, points, xs[..n], shares[..n]) + Weight(q, points, xs[n]) * shares[n]
  }

  method ComputeEpochSecretKey(q: int, keyperIndices: seq<int>, shares: seq<G1>, threshold: nat)
      returns (r: Result<G1>)
    requires q >= 2
    ensures r.Ok? <==> |keyperIndices| == |shares| == threshold
    ensures r.Ok? ==> r.value == Combined(q, keyperIndices, keyperIndices, shares) % q
  {
    if |keyperIndices| != |shares| {
      return Err("different numbers of keyper indices and secret shares");
    }
    if |keyperIndices| != threshold {
      return Err("number of shares is not the threshold");
    }
    var skG1 := ZERO;
    CongRefl(q, 0);
    for i := 0 to |keyperIndices|
      invariant CombineInvariant(q, keyperIndices, shares, i, skG1)
    {
      var lambda := LagrangeCoefficient(q, keyperIndices[i], keyperIndices);
      CombineStep(q, keyperIndices, shares, i, skG1, lambda);
      skG1 := Add(q, skG1, ScalarMult(q, shares[i], lambda));
    }
    CombineEnd(q, keyperIndices, shares, skG1);
    return Ok(skG1);
  }

  ghost predicate CombineInvariant(q: int, points: seq<int>, shares: seq<G1>, i: nat, sk: int)
    requires q >= 2 && i <= |points| == |shares|
  {
    0 <= sk < q && Cong(q, sk, Combined(q, points, points[..i], shares[..i]))
  }

  lemma {:induction false} CombineStep(q: int, points: seq<int>, shares: seq<G1>, i: nat, sk: int, lambda: int)
    requires q >= 2 && i < |points| == |shares| && CombineInvariant(q, points, shares, i, sk)
    requires lambda == Weight(q, points, points[i]) % q
    ensures CombineInvariant(q, points, shares, i + 1, Add(q, sk, ScalarMult(q, shares[i], lambda)))
  {
    assert points[..i + 1][..i] == points[..i] && shares[..i + 1][..i] == shares[..i];
    WeighShare(q, shares[i], lambda, Weight(q, points, points[i]));
    AddStep(q, sk, Combined(q, points, points[..i], shares[..i]),
            ScalarMult(q, shares[i], lambda), Weight(q, points, points[i]) * shares[i]);
  }

  lemma WeighShare(q: int, share: int, lambda: int, w: int)
    requires q > 0 && lambda == w % q
    ensures Cong(q, ScalarMult(q, share, lambda), w * share)
  {
    CongMod(q, w);
    CongScale(q, lambda, w, share);
    CongMod(q, share * lambda);
    CongTrans(q, ScalarMult(q, share, lambda), share * lambda, w * share);
  }

  lemma {:induction false} CombineEnd(q: int, points: seq<int>, shares: seq<G1>, sk: int)
    requires q >= 2 && |points| == |shares| && CombineInvariant(q, points, shares, |points|, sk)
    ensures sk == Combined(q, points, points, shares) % q
  {
    assert points[..|points|] == points && shares[..|shares|] == shares;
    ReducedIsMod(q, sk, Combined(q, points, points, shares));
  }

  lemma {:induction false} CombinedIsSum(q: int, points: seq<int>, xs: seq<int>, shares: seq<G1>, f: int -> int)
    requires q >= 2 && |xs| == |shares|
    requires forall j :: 0 <= j < |xs| ==> Cong(q, shares[j], f(xs[j]))
    ensures Cong(q, Combined(q, points, xs, shares), Sum(q, points, xs, f))
  {
    if xs == [] {
      CongRefl(q, 0);
    } else {
      var n := |xs| - 1;
      CombinedIsSum(q, points, xs[..n], shares[..n], f);
      CongScale(q, shares[n], f(xs[n]), Weight(q, points, xs[n]));
      CongAdd(q, Combined(q, points, xs[..n], shares[..n]), Sum(q, points, xs[..n], f),
              Weight(q, points, xs[n]) * shares[n], Weight(q, points, xs[n]) * f(xs[n]));
    }
  }

  /** A share of the epoch secret key, for the joint polynomial F. */
  ghost predicate CorrectShare(q: int, F: Polynomial, id: G1, keyperIndex: int, share: G1) {
    Cong(q, share, id * PolyValue(F, KeyperX(keyperIndex)))
  }

  /** Any |F| correct shares of distinct keypers combine to the same epoch secret
      key: the epoch id times the joint secret F(0). */
  lemma {:induction false} CombinedKey(q: int, F: Polynomial, id: G1, xs: seq<int>, shares: seq<G1>)
    requires Prime(q) && ValidPoints(q, xs) && |xs| == |shares| == |F|
    requires forall j :: 0 <= j < |xs| ==> CorrectShare(q, F, id, xs[j], shares[j])
    ensures Combined(q, xs, xs, shares) % q == (id * PolyValue(F, 0)) % q
  {
    var g, f := i => PolyValue(F, KeyperX(i)), i => id * PolyValue(F, KeyperX(i));
    CombinedIsSum(q, xs, xs, shares, f);
    Interpolation(q, xs, F, g);
    SumLinear(q, xs, xs, f, g, g, id, 0);
    ScaledSum(q, Combined(q, xs, xs, shares), Sum(q, xs, xs, f), Sum(q, xs, xs, g), id, PolyValue(F, 0));
  }

  lemma ScaledSum(q: int, c: int, f: int, g: int, id: int, v: int)
    requires q > 0 && Cong(q, c, f) && f == id * g + 0 * g && Cong(q, g, v)
    ensures c % q == (id * v) % q
  {
    CongScale(q, g, v, id);
    CongTrans(q, c, f, id * v);
    ModOfCong(q, c, id * v);
  }
}
