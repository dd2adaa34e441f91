/** Keypers that watch the same chain agree on the outcome of the DKG, although each
    cuts the chain into steps of its own and each sees only its own secret values. */
module Agreement {
  import opened Addresses
  import opened Outcome
  import opened Modular
  import opened Groups
  import opened Feldman
  import opened Keys
  import opened Observe
  import opened DistributedKeyGeneration
  import opened KeyperSync
  import opened KeyperRuns
  import opened Chunking
  import opened Restarts
  import opened DkgRuns
  import Encryption
  import EpochKeyGeneration
  import ThresholdDecryption

  /** Two keypers of one eon: their secrets differ, what they read off the chain does
      not. */
  ghost predicate SameEon(env: Env, env': Env, s: State, s': State) {
    && env.keypers == env'.keypers && env.plen == env'.plen && env.start == env'.start
    && s.Valid() && s'.Valid() && s.pub.numKeypers == |env.keypers|
    && s.eon == s'.eon && s.pub == s'.pub && s.phase == s'.phase
  }

  lemma {:induction false} SameCommitments(env: Env, env': Env, s: State, s': State, evs: seq<At<CommitmentMsg>>)
    requires SameEon(env, env', s, s')
    ensures SameEon(env, env', Commitments(env, s, evs), Commitments(env', s', evs))
    decreases |evs|
  {
    if evs != [] {
      SameCommitments(env, env', s, s', evs[..|evs| - 1]);
    }
  }

  lemma {:induction false} SameAccusationList(env: Env, env': Env, s: State, s': State, accuser: nat, accused: seq<Address>)
    requires SameEon(env, env', s, s')
    ensures SameEon(env, env', AccusationList(env, s, accuser, accused), AccusationList(env', s', accuser, accused))
    decreases |accused|
  {
    if accused != [] {
      SameAccusationList(env, env', s, s', accuser, accused[..|accused| - 1]);
    }
  }

  lemma {:induction false} SameAccusations(env: Env, env': Env, s: State, s': State, evs: seq<At<AccusationMsg>>)
    requires SameEon(env, env', s, s')
    ensures SameEon(env, env', Accusations(env, s, evs), Accusations(env', s', evs))
    decreases |evs|
  {
    if evs != [] {
      var n := |evs| - 1;
      SameAccusations(env, env', s, s', evs[..n]);
      var sender := FindAddressIndex(env.keypers, evs[n].msg.sender);
      if sender.Some? {
        SameAccusationList(env, env', Accusations(env, s, evs[..n]), Accusations(env', s', evs[..n]),
                           sender.value, evs[n].msg.accused);
      }
    }
  }

  lemma {:induction false} SameApologyList(env: Env, env': Env, s: State, s': State, accused: nat,
                                           apologies: seq<(Address, int)>)
    requires SameEon(env, env', s, s')
    ensures SameEon(env, env', ApologyList(env, s, accused, apologies), ApologyList(env', s', accused, apologies))
    decreases |apologies|
  {
    if apologies != [] {
      SameApologyList(env, env', s, s', accused, apologies[..|apologies| - 1]);
    }
  }

  lemma {:induction false} SameApologies(env: Env, env': Env, s: State, s': State, evs: seq<At<ApologyEvent>>)
    requires SameEon(env, env', s, s')
    ensures SameEon(env, env', Apologies(env, s, evs), Apologies(env', s', evs))
    decreases |evs|
  {
    if evs != [] {
      var n := |evs| - 1;
      SameApologies(env, env', s, s', evs[..n]);
      var sender := FindAddressIndex(env.keypers, evs[n].msg.sender);
      if sender.Some? {
        SameApologyList(env, env', Apologies(env, s, evs[..n]), Apologies(env', s', evs[..n]),
                        sender.value, evs[n].msg.apologies);
      }
    }
  }

  /** What a step reads off the chain does not depend on the keyper. */
  lemma SameView(env: Env, env': Env, s: State, s': State, eon: DKGEon, c: int)
    requires SameEon(env, env', s, s') && s.phase == Off && env.start <= c
    ensures SyncDKG(env, s, eon, env.start, c).pub == SyncDKG(env', s', eon, env.start, c).pub
  {
    SyncByParts(env, s, eon, env.start, c);
    SyncByParts(env', s', eon, env.start, c);
    var b, b' := AsOff(Begun(env, s, env.PhaseOf(c + 1))), AsOff(Begun(env', s', env.PhaseOf(c + 1)));
    SameCommitments(env, env', b, b', Window(eon.commitments, env.start, c));
    SameAccusations(env, env', b, b', Window(eon.accusations, env.start, c));
    SameApologies(env, env', b, b', Window(eon.apologies, env.start, c));
  }

  /** A keyper whose DKG has finished, after a run in which loading did no harm. The
      configuration checks that thresholds are positive. */
  ghost predicate Finished(env: Env, initial: State, eon: DKGEon, ops: seq<Op>, s: State) {
    && ValidSetting(env, initial, eon) && initial.pub.threshold >= 1 && Benign(env, initial, eon, ops)
    && MemoryAfter(env, initial, eon, ops).dkg == Some(Done(s))
  }

  /** One step over the chain up to a block past the eon's end, by two keypers and with
      different last blocks: the views are the same. */
  lemma IdealsAgree(env: Env, env': Env, i: State, i': State, eon: DKGEon, c: int, c': int, t: State, t': State)
    requires SameEon(env, env', i, i') && ValidSetting(env, i, eon) && ValidSetting(env', i', eon)
    requires env.start <= c && env.PhaseOf(c + 1) == Finalized && t == SyncDKG(env, i, eon, env.start, c)
    requires env.start <= c' && env.PhaseOf(c' + 1) == Finalized && t' == SyncDKG(env', i', eon, env.start, c')
    ensures t.pub == t'.pub
  {
    IdealFacts(env, i, eon, c, t);
    IdealFacts(env', i', eon, c', t');
    if c <= c' {
      FinishedStays(env, i, eon, c, c', t);
      SameView(env, env', i, i', eon, c');
    } else {
      FinishedStays(env', i', eon, c', c, t');
      SameView(env, env', i, i', eon, c);
    }
  }

  /** Two keypers of one eon have finished: their outcomes are those of two DKGs that
      hold the same commitments, accusations and apologies. */
  lemma OneView(env: Env, env': Env, i: State, i': State, eon: DKGEon, ops: seq<Op>, ops': seq<Op>, s: State, s': State)
    returns (t: State, t': State)
    requires SameEon(env, env', i, i')
    requires Finished(env, i, eon, ops, s) && Finished(env', i', eon, ops', s')
    ensures SameOutcome(s, t) && SameOutcome(s', t') && t.pub == t'.pub && SameKeyper(i, t) && SameKeyper(i', t')
  {
    var c := BenignOutcome(env, i, eon, ops, s);
    var c' := BenignOutcome(env', i', eon, ops', s');
    t, t' := SyncDKG(env, i, eon, env.start, c), SyncDKG(env', i', eon, env.start, c');
    IdealFacts(env, i, eon, c, t);
    IdealFacts(env', i', eon, c', t');
    IdealsAgree(env, env', i, i', eon, c, c', t, t');
  }

  lemma FaithfulFinal(env: Env, initial: State, eon: DKGEon, ops: seq<Op>, s: State) returns (c: int)
    requires ValidSetting(env, initial, eon) && Faithful(env, initial, eon, ops)
    requires MemoryAfter(env, initial, eon, ops).dkg == Some(Done(s))
    ensures env.start <= c && env.PhaseOf(c + 1) == Finalized && s == SyncDKG(env, initial, eon, env.start, c)
  {
    c := MemoryAfter(env, initial, eon, ops).syncHeight - 1;
    DkgRuns.RunIsOneStep(env, initial, eon, ops, c);
    IdealFacts(env, initial, eon, c, SyncDKG(env, initial, eon, env.start, c));
  }

  /** Keypers that have finished, at whatever heights and after whatever faithful runs,
      hold the same commitments, accusations and apologies. */
  lemma FinishedAgree(env: Env, env': Env, i: State, i': State, eon: DKGEon, ops: seq<Op>, ops': seq<Op>, s: State, s': State)
    requires SameEon(env, env', i, i') && ValidSetting(env, i, eon) && ValidSetting(env', i', eon)
    requires Faithful(env, i, eon, ops) && MemoryAfter(env, i, eon, ops).dkg == Some(Done(s))
    requires Faithful(env', i', eon, ops') && MemoryAfter(env', i', eon, ops').dkg == Some(Done(s'))
    ensures s.pub == s'.pub
  {
    var c := FaithfulFinal(env, i, eon, ops, s);
    var c' := FaithfulFinal(env', i', eon, ops', s');
    IdealsAgree(env, env', i, i', eon, c, c', s, s');
  }

  /** DKG agreement on the chain: any two keypers whose DKG succeeds, whatever the
      dealers sent and however each keyper's run was cut, repeated or interrupted, have
      the same public key and public key shares, and secret shares on one polynomial
      with `threshold` coefficients, if no restart of theirs did harm. */
  lemma KeypersAgree(env: Env, env': Env, i: State, i': State, eon: DKGEon, ops: seq<Op>, ops': seq<Op>,
                     s: State, s': State, r: DKGResult, r': DKGResult)
    requires SameEon(env, env', i, i')
    requires Finished(env, i, eon, ops, s) && Finished(env', i', eon, ops', s')
    requires s.Valid() && Succeeds(s) && IsResult(s, r)
    requires s'.Valid() && Succeeds(s') && IsResult(s', r')
    ensures r.eon == r'.eon == i.eon && r.keyper == i.keyper && r'.keyper == i'.keyper
    ensures r.publicKey == r'.publicKey && r.publicKeyShares == r'.publicKeyShares
    ensures exists F: Polynomial :: SharesOf(i.pub.q, F, r) && SharesOf(i.pub.q, F, r')
  {
    var t, t' := OneView(env, env', i, i', eon, ops, ops', s, s');
    DKGSoundness(t, r, t', r');
  }

  /** From the chain to the decrypted message: what is encrypted for an epoch to one
      keyper's public key is decrypted by the key any other keyper holds for the epoch,
      whatever shares it was sent. */
  lemma ChainToMessage(o: Encryption.Oracle, env: Env, env': Env, i: State, i': State, eon: DKGEon,
                       ops: seq<Op>, ops': seq<Op>, s: State, s': State, r: DKGResult, r': DKGResult,
                       input: seq<EpochKeyGeneration.Share>, epoch: nat,
                       message: Encryption.Bytes, sigma: Encryption.Block)
    requires SameEon(env, env', i, i')
    requires Finished(env, i, eon, ops, s) && Finished(env', i', eon, ops', s')
    requires s.Valid() && Succeeds(s) && IsResult(s, r)
    requires s'.Valid() && Succeeds(s') && IsResult(s', r')
    requires Prime(i.pub.q) && i.pub.numKeypers < i.pub.q
    requires EpochKeyGeneration.KnownSenders(r', input)
    requires epoch in EpochKeyGeneration.Run(i.pub.q, r', input).secretKeys
    ensures var q, sk := i.pub.q, EpochKeyGeneration.Run(i.pub.q, r', input).secretKeys[epoch];
      && sk.Some?
      && Encryption.Decrypted(o, q, Encryption.Encrypted(o, q, message, r.publicKey, ComputeEpochID(q, epoch), sigma),
                              sk.value)
         == Ok(message)
  {
    var t, t' := OneView(env, env', i, i', eon, ops, ops', s, s');
    ThresholdDecryption.StoredKeyDecrypts(o, t, r, t', r', input, epoch, message, sigma);
  }
}
