/** From the dealers' polynomials to the decrypted message. */
module ThresholdDecryption {
  import opened Modular
  import opened Outcome
  import opened Widths
  import opened Groups
  import opened Feldman
  import opened Lagrange
  import opened Keys
  import opened Encryption
  import opened DistributedKeyGeneration
  import EpochKeyGeneration

  /** Every dealer's value for keyper i, reduced as `EvalForKeyper` reduces it. */
  ghost predicate DealtValues(q: int, ps: seq<Polynomial>, i: int, evals: seq<int>)
    requires q > 0
  {
    |evals| == |ps| && forall d :: 0 <= d < |ps| ==> evals[d] == PolyValue(ps[d], KeyperX(i)) % q
  }

  lemma {:induction false} DealtValuesSum(q: int, ps: seq<Polynomial>, i: int, evals: seq<int>)
    requires q > 0 && DealtValues(q, ps, i, evals)
    ensures Cong(q, SumOf(evals), JointValue(ps, KeyperX(i)))
  {
    if ps == [] {
      CongRefl(q, 0);
    } else {
      var n := |ps| - 1;
      DealtValuesSum(q, ps[..n], i, evals[..n]);
      CongMod(q, PolyValue(ps[n], KeyperX(i)));
      CongAdd(q, SumOf(evals[..n]), JointValue(ps[..n], KeyperX(i)), evals[n], PolyValue(ps[n], KeyperX(i)));
    }
  }

  lemma {:induction false} CommittedSum(q: int, gs: seq<Gammas>, ps: seq<Polynomial>, x: int)
    requires q > 0 && |gs| == |ps| && forall d :: 0 <= d < |ps| ==> CommitsTo(q, gs[d], ps[d])
    ensures Cong(q, JointValue(gs, x), JointValue(ps, x))
  {
    if ps == [] {
      CongRefl(q, 0);
    } else {
      var n := |ps| - 1;
      CommittedSum(q, gs[..n], ps[..n], x);
      CommitmentValue(q, gs[n], ps[n], x);
      CongAdd(q, JointValue(gs[..n], x), JointValue(ps[..n], x), PolyValue(gs[n], x), PolyValue(ps[n], x));
    }
  }

  /** A keyper's epoch share, computed from the dealt values, is correct for the
      joint polynomial. */
  lemma ShareFromDealing(q: int, ps: seq<Polynomial>, t: nat, i: int, evals: seq<int>, id: G1)
    requires q > 0 && (forall d :: 0 <= d < |ps| ==> |ps[d]| == t) && DealtValues(q, ps, i, evals)
    ensures CorrectShare(q, JointPolynomial(ps, t), id, i, ComputeEpochSecretKeyShare(q, SumOf(evals) % q, id))
  {
    var v := PolyValue(JointPolynomial(ps, t), KeyperX(i));
    DealtValuesSum(q, ps, i, evals);
    JointPolynomialValue(ps, t, KeyperX(i));
    ModOfCong(q, SumOf(evals), v);
    EpochKeyGeneration.OwnShareCorrect(q, id, SumOf(evals) % q, v);
  }

  /** End-to-end threshold decryption: for any number of dealers with polynomials
      of t coefficients, any message, epoch id and sigma, and any t distinct
      keypers, decrypting with the key combined from those keypers' shares returns
      the message encrypted to the eon public key. */
  lemma EndToEnd(o: Oracle, q: int, ps: seq<Polynomial>, gs: seq<Gammas>, t: nat, message: Bytes, id: G1,
                 sigma: Block, xs: seq<int>, evals: seq<seq<int>>, shares: seq<G1>)
    requires Prime(q) && t >= 1
    requires |gs| == |ps| && forall d :: 0 <= d < |ps| ==> |ps[d]| == t && CommitsTo(q, gs[d], ps[d])
    requires ValidPoints(q, xs) && |xs| == |evals| == |shares| == t
    requires forall j :: 0 <= j < t ==> DealtValues(q, ps, xs[j], evals[j])
    requires forall j :: 0 <= j < t ==> shares[j] == ComputeEpochSecretKeyShare(q, SumOf(evals[j]) % q, id)
    ensures var pk, sk := JointValue(gs, 0) % q, Combined(q, xs, xs, shares) % q;
      Decrypted(o, q, Encrypted(o, q, message, pk, id, sigma), sk) == Ok(message)
  {
    var F := JointPolynomial(ps, t);
    var s, pk, sk := PolyValue(F, 0), JointValue(gs, 0) % q, Combined(q, xs, xs, shares) % q;
    forall j | 0 <= j < t
      ensures CorrectShare(q, F, id, xs[j], shares[j])
    {
      ShareFromDealing(q, ps, t, xs[j], evals[j], id);
    }
    CombinedKey(q, F, id, xs, shares);
    CommittedSum(q, gs, ps, 0);
    JointPolynomialValue(ps, t, 0);
    CongMod(q, JointValue(gs, 0));
    CongTrans(q, pk, JointValue(gs, 0), s);
    CongMod(q, id * s);
    EncryptionRoundTrip(o, q, message, pk, id, sigma, sk, s);
  }

  /** The same through the protocol objects and under arbitrary dealers: whatever
      shares a keyper received, in whatever order, a key it holds for an epoch
      decrypts what was encrypted for that epoch to the public key of any keyper
      that finished the DKG on the same chain. */
  lemma StoredKeyDecrypts(o: Oracle, s1: State, r1: DKGResult, s2: State, r2: DKGResult,
                          input: seq<EpochKeyGeneration.Share>, epoch: nat, message: Bytes, sigma: Block)
    requires s1.Valid() && Succeeds(s1) && IsResult(s1, r1)
    requires s2.Valid() && Succeeds(s2) && IsResult(s2, r2)
    requires s1.pub == s2.pub && Prime(s1.pub.q) && 1 <= s1.pub.threshold && s1.pub.numKeypers < s1.pub.q
    requires EpochKeyGeneration.KnownSenders(r2, input)
    requires epoch in EpochKeyGeneration.Run(s1.pub.q, r2, input).secretKeys
    ensures var q, sk := s1.pub.q, EpochKeyGeneration.Run(s1.pub.q, r2, input).secretKeys[epoch];
      && sk.Some?
      && Decrypted(o, q, Encrypted(o, q, message, r1.publicKey, ComputeEpochID(q, epoch), sigma), sk.value)
         == Ok(message)
  {
    var q := s1.pub.q;
    ResultShares(s1, r1);
    ResultShares(s2, r2);
    var F := SharedPolynomial(s1.pub);
    EpochKeyGeneration.KeyExactlyWhenEnough(q, F, r2, input, epoch);
    var id, s := ComputeEpochID(q, epoch), PolyValue(F, 0);
    CongMod(q, s);
    CongMod(q, id * s);
    EncryptionRoundTrip(o, q, message, r1.publicKey, id, sigma, EpochKeyGeneration.EpochSecretKey(q, F, epoch), s);
  }

  /** The key of one epoch is of no use for another: with it, no block of a message that was
      encrypted for the other comes out right, unless hashes collide or the secret is 0. */
  lemma OtherEpochsKeyGarbles(o: Oracle, q: int, F: Polynomial, e: nat, e': nat, message: Bytes, sigma: Block, i: nat)
    requires Prime(q) && q > TWO_64 && e + 1 < TWO_64 && e' + 1 < TWO_64 && e != e'
    requires !Cong(q, PolyValue(F, 0), 0) && HashBlockToInt(o, q, sigma) != 0 && i < |Split(Padded(message))|
    requires var c := Encrypted(o, q, message, PolyValue(F, 0) % q, ComputeEpochID(q, e), sigma);
      HashesApart(o, q, c, EpochKeyGeneration.EpochSecretKey(q, F, e), EpochKeyGeneration.EpochSecretKey(q, F, e'), sigma, i)
    ensures var c := Encrypted(o, q, message, PolyValue(F, 0) % q, ComputeEpochID(q, e), sigma);
      Unmasked(o, c.c3, Sigma(o, q, c, EpochKeyGeneration.EpochSecretKey(q, F, e')))[i] != Split(Padded(message))[i]
  {
    var id, s := ComputeEpochID(q, e), PolyValue(F, 0);
    var sk, sk' := EpochKeyGeneration.EpochSecretKey(q, F, e), EpochKeyGeneration.EpochSecretKey(q, F, e');
    EpochKeyGeneration.EpochKeysDiffer(q, F, e, e');
    CongMod(q, s);
    CongMod(q, id * s);
    if Cong(q, sk, sk') {
      CongUnique(q, sk, sk');
    }
    WrongKeyGarbles(o, q, message, s % q, id, sigma, sk, s, sk', i);
  }

  /** The hashes that decrypting with either key needs do not collide. */
  ghost predicate HashesApart(o: Oracle, q: int, c: EncryptedMessage, sk: G1, sk': G1, sigma: Block, i: nat)
    requires q > 0
  {
    && PairingsApart(o, Pair(q, sk, c.c1), Pair(q, sk', c.c1))
    && KeysApart(o, sigma, i, Sigma(o, q, c, sk'), i)
  }
}
