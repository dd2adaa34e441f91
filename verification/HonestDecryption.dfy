/** From honest keypers to the decrypted message: if as many keypers as the threshold asks
    for follow the protocol and publish their shares of an epoch, every keyper that has
    finished the DKG gets the epoch's key, whatever else it is sent, and the key decrypts. */
module HonestDecryption {
  import opened Sets
  import opened Outcome
  import opened Modular
  import opened Groups
  import opened Feldman
  import opened Keys
  import opened Observe
  import opened DistributedKeyGeneration
  import opened KeyperSync
  import opened KeyperRuns
  import opened Chunking
  import opened Restarts
  import opened DkgRuns
  import opened Agreement
  import opened HonestKeypers
  import opened EpochKeyGeneration
  import Encryption
  import ThresholdDecryption

  /** How a keyper's DKG has ended: its run, the DKG and the result. */
  datatype End = End(ops: seq<Op>, final: State, result: DKGResult)

  ghost predicate Ends(env: Env, initial: State, eon: DKGEon, e: End) {
    && Finished(env, initial, eon, e.ops, e.final)
    && e.final.Valid() && IsResult(e.final, e.result)
  }

  /** All honest keypers have finished. */
  ghost predicate AllEnd(honest: map<nat, Conduct>, eon: DKGEon, ends: map<nat, End>) {
    && ends.Keys == honest.Keys
    && forall d :: d in honest ==> Ends(honest[d].env, honest[d].initial, eon, ends[d])
  }

  /** The share that a keyper publishes for the epoch, as `EpochKG.ComputeShare` has it. */
  function PublishedShare(q: int, r: DKGResult, epoch: nat): Share
    requires q > 0
  {
    Share(epoch, r.keyper, ComputeEpochSecretKeyShare(q, r.secretKeyShare, ComputeEpochID(q, epoch)))
  }

  /** All honest keypers' shares are among those received. */
  ghost predicate AllPublished(q: int, ends: map<nat, End>, epoch: nat, input: seq<Share>)
    requires q > 0
  {
    forall d :: d in ends ==> PublishedShare(q, ends[d].result, epoch) in input
  }

  /** The final DKG that one step would have made, with the polynomial shared by it. */
  lemma SharedByAll(env: Env, initial: State, eon: DKGEon, e: End, c: int, t: State, env': Env, initial': State, e': End)
    requires SameEon(env, env', initial, initial') && ValidSetting(env, initial, eon)
    requires env.start <= c && env.PhaseOf(c + 1) == Finalized && t == SyncDKG(env, initial, eon, env.start, c)
    requires t.Valid() && Succeeds(t) && IsResult(t, e.result)
    requires Ends(env', initial', eon, e') && Succeeds(e'.final)
    ensures forall d :: 0 <= d < t.pub.numKeypers && !Corrupt(t.pub, d) ==> |t.pub.commitments[d].value| == t.pub.threshold
    ensures SharesOf(t.pub.q, SharedPolynomial(t.pub), e'.result) && e'.result.keyper == initial'.keyper
    ensures e'.result.publicKey == e.result.publicKey
  {
    var c' := BenignOutcome(env', initial', eon, e'.ops, e'.final);
    var t' := SyncDKG(env', initial', eon, env'.start, c');
    IdealFacts(env', initial', eon, c', t');
    IdealsAgree(env, env', initial, initial', eon, c, c', t, t');
    ResultShares(t, e.result);
    ResultShares(t', e'.result);
  }

  /** What an honest keyper publishes is a right share. */
  lemma PublishedAccepted(q: int, F: Polynomial, r: DKGResult, r': DKGResult, epoch: nat)
    requires Keyed(q, F, r) && SharesOf(q, F, r') && r'.keyper < |r.publicKeyShares|
    ensures Accepted(q, r, PublishedShare(q, r', epoch))
  {
    var share := PublishedShare(q, r', epoch);
    OwnShareCorrect(q, ComputeEpochID(q, epoch), r'.secretKeyShare, PolyValue(F, KeyperX(r'.keyper)));
    AcceptedExact(q, F, r, share);
  }

  /** The collector has the honest keypers among its contributors. */
  lemma AllContribute(q: int, F: Polynomial, r: DKGResult, ends: map<nat, End>, epoch: nat, input: seq<Share>)
    requires Keyed(q, F, r) && KnownSenders(r, input) && AllPublished(q, ends, epoch, input)
    requires forall d :: d in ends ==>
      SharesOf(q, F, ends[d].result) && ends[d].result.keyper == d && d < |r.publicKeyShares|
    ensures |Contributors(q, r, input, epoch)| >= |ends|
  {
    forall d | d in ends.Keys
      ensures d in Contributors(q, r, input, epoch)
    {
      var share := PublishedShare(q, ends[d].result, epoch);
      PublishedAccepted(q, F, r, ends[d].result, epoch);
      assert share in input;
      var i :| 0 <= i < |input| && input[i] == share;
    }
    SmallerSet(ends.Keys, Contributors(q, r, input, epoch));
    assert |ends.Keys| == |ends|;
  }

  /** A keyper whose DKG has succeeded, next to the honest ones. */
  ghost predicate Collector(honest: map<nat, Conduct>, eon: DKGEon, env: Env, initial: State, e: End) {
    && Ends(env, initial, eon, e) && Succeeds(e.final)
    && forall d :: d in honest ==> SameEon(env, honest[d].env, initial, honest[d].initial)
  }

  lemma HonestShare(honest: map<nat, Conduct>, eon: DKGEon, ends: map<nat, End>, env: Env, initial: State, e: End,
                    c: int, t: State, d: nat)
    requires AllHonest(honest, eon) && AllEnd(honest, eon, ends) && Collector(honest, eon, env, initial, e)
    requires |honest| >= initial.pub.threshold && d in ends
    requires env.start <= c && env.PhaseOf(c + 1) == Finalized && t == SyncDKG(env, initial, eon, env.start, c)
    requires t.Valid() && Succeeds(t) && IsResult(t, e.result)
    ensures forall d :: 0 <= d < t.pub.numKeypers && !Corrupt(t.pub, d) ==> |t.pub.commitments[d].value| == t.pub.threshold
    ensures SharesOf(t.pub.q, SharedPolynomial(t.pub), ends[d].result)
    ensures ends[d].result.keyper == d && ends[d].result.publicKey == e.result.publicKey
  {
    EnoughHonestKeypers(honest, eon, d, ends[d].ops, ends[d].final);
    SharedByAll(env, initial, eon, e, c, t, honest[d].env, honest[d].initial, ends[d]);
  }

  /** All results describe one polynomial, read off the view of the collecting keyper. */
  lemma HonestShares(honest: map<nat, Conduct>, eon: DKGEon, ends: map<nat, End>, env: Env, initial: State, e: End,
                     c: int, t: State)
    requires AllHonest(honest, eon) && AllEnd(honest, eon, ends) && Collector(honest, eon, env, initial, e)
    requires |honest| >= initial.pub.threshold
    requires env.start <= c && env.PhaseOf(c + 1) == Finalized && t == SyncDKG(env, initial, eon, env.start, c)
    requires t.Valid() && Succeeds(t) && IsResult(t, e.result)
    ensures forall d :: 0 <= d < t.pub.numKeypers && !Corrupt(t.pub, d) ==> |t.pub.commitments[d].value| == t.pub.threshold
    ensures forall d :: d in ends ==>
      && SharesOf(t.pub.q, SharedPolynomial(t.pub), ends[d].result)
      && ends[d].result.keyper == d && ends[d].result.publicKey == e.result.publicKey
  {
    ResultShares(t, e.result);
    forall d | d in ends
      ensures SharesOf(t.pub.q, SharedPolynomial(t.pub), ends[d].result)
      ensures ends[d].result.keyper == d && ends[d].result.publicKey == e.result.publicKey
    {
      HonestShare(honest, eon, ends, env, initial, e, c, t, d);
    }
  }

  /** Shares on one polynomial, published by enough keypers, give the key that decrypts. */
  lemma PublishedSharesDecrypt(o: Encryption.Oracle, t: State, r: DKGResult, ends: map<nat, End>, input: seq<Share>,
                               epoch: nat, message: Encryption.Bytes, sigma: Encryption.Block)
    requires t.Valid() && Succeeds(t) && IsResult(t, r) && Prime(t.pub.q) && t.pub.numKeypers < t.pub.q
    requires |ends| >= t.pub.threshold >= 1 && KnownSenders(r, input) && AllPublished(t.pub.q, ends, epoch, input)
    requires forall d :: 0 <= d < t.pub.numKeypers && !Corrupt(t.pub, d) ==> |t.pub.commitments[d].value| == t.pub.threshold
    requires forall d :: d in ends ==>
      SharesOf(t.pub.q, SharedPolynomial(t.pub), ends[d].result) && ends[d].result.keyper == d < t.pub.numKeypers
    ensures var q, keys := t.pub.q, EpochKeyGeneration.Run(t.pub.q, r, input).secretKeys;
      && epoch in keys && keys[epoch].Some?
      && Encryption.Decrypted(o, q, Encryption.Encrypted(o, q, message, r.publicKey, ComputeEpochID(q, epoch), sigma),
                              keys[epoch].value) == Ok(message)
  {
    var F := SharedPolynomial(t.pub);
    ResultShares(t, r);
    AllContribute(t.pub.q, F, r, ends, epoch, input);
    KeyExactlyWhenEnough(t.pub.q, F, r, input, epoch);
    ThresholdDecryption.StoredKeyDecrypts(o, t, r, t, r, input, epoch, message, sigma);
  }

  /** Once all honest keypers have published their shares for an epoch, and there are
      `threshold` many of them, every keyper whose DKG has succeeded holds the epoch's key,
      in whatever order and with whatever else it has received; and the key decrypts what
      was encrypted for the epoch to the public key of any honest keyper. */
  lemma HonestKeypersDecrypt(o: Encryption.Oracle, honest: map<nat, Conduct>, eon: DKGEon, ends: map<nat, End>,
                             env: Env, initial: State, e: End, input: seq<Share>, epoch: nat,
                             d: nat, message: Encryption.Bytes, sigma: Encryption.Block)
    requires AllHonest(honest, eon) && AllEnd(honest, eon, ends) && Collector(honest, eon, env, initial, e)
    requires |honest| >= initial.pub.threshold && d in honest
    requires Prime(initial.pub.q) && initial.pub.numKeypers < initial.pub.q
    requires KnownSenders(e.result, input) && AllPublished(initial.pub.q, ends, epoch, input)
    ensures var q, keys := initial.pub.q, EpochKeyGeneration.Run(initial.pub.q, e.result, input).secretKeys;
      && epoch in keys && keys[epoch].Some?
      && Encryption.Decrypted(o, q, Encryption.Encrypted(o, q, message, ends[d].result.publicKey,
                                                         ComputeEpochID(q, epoch), sigma), keys[epoch].value)
         == Ok(message)
  {
    var c := BenignOutcome(env, initial, eon, e.ops, e.final);
    var t := SyncDKG(env, initial, eon, env.start, c);
    IdealFacts(env, initial, eon, c, t);
    HonestShares(honest, eon, ends, env, initial, e, c, t);
    assert |ends.Keys| == |honest.Keys|;
    forall k | k in ends
      ensures k < t.pub.numKeypers
    {
      assert honest[k].initial.keyper == k && SameEon(env, honest[k].env, initial, honest[k].initial);
    }
    PublishedSharesDecrypt(o, t, e.result, ends, input, epoch, message, sigma);
  }
}
