/** What saving and loading does to a DKG, and when that does no harm.

    The state is saved with gob, which does not keep nil elements of a list: a missing
    commitment comes back as an empty one, and a missing value as 0
    (shuttermint/shcrypto/feldman.go:124-147). Both count as received. */
module Restarts {
  import opened Addresses
  import opened Outcome
  import opened Groups
  import opened Feldman
  import opened Observe
  import opened DistributedKeyGeneration
  import opened KeyperSync
  import opened Chunking

  // ----- loading a saved DKG

  const NO_COMMITMENT: Gammas := []

  function ReloadedCommitments(cs: seq<Option<Gammas>>): (r: seq<Option<Gammas>>)
    ensures |r| == |cs|
    ensures forall d :: 0 <= d < |cs| ==> r[d] == if cs[d].Some? then cs[d] else Some(NO_COMMITMENT)
  {
    seq(|cs|, d requires 0 <= d < |cs| => if cs[d].Some? then cs[d] else Some(NO_COMMITMENT))
  }

  function ReloadedEvals(es: seq<Option<int>>): (r: seq<Option<int>>)
    ensures |r| == |es|
    ensures forall d :: 0 <= d < |es| ==> r[d] == if es[d].Some? then es[d] else Some(0)
  {
    seq(|es|, d requires 0 <= d < |es| => if es[d].Some? then es[d] else Some(0))
  }

  /** The DKG after saving and loading. */
  function Reloaded(s: State): (t: State)
    requires s.Valid()
    ensures t.Valid() && SameKeyper(s, t) && t.phase == s.phase
  {
    s.(evals := ReloadedEvals(s.evals), pub := s.pub.(commitments := ReloadedCommitments(s.pub.commitments)))
  }

  /** Every dealer's commitment and value have arrived. */
  predicate AllPresent(s: State)
    requires |s.pub.commitments| == |s.evals|
  {
    forall d :: 0 <= d < |s.evals| ==> s.pub.commitments[d].Some? && s.evals[d].Some?
  }

  /** Some accusation against the dealer, or apology by it, is on the chain. */
  ghost predicate Involved(b: Broadcast, dealer: nat) {
    exists key: AccusationKey :: key.accused == dealer && (key in b.accusations || key in b.apologies)
  }

  /** The dealer's value for this keyper can play no part any more: the dealer owes this
      keyper an apology or has given one, has apologized wrongly to somebody, or the
      value 0 would be recognized as wrong. */
  ghost predicate ValueIdle(s: State, dealer: nat)
    requires s.Valid() && dealer < s.pub.numKeypers && s.pub.commitments[dealer].Some?
  {
    || AccusationKey(s.keyper, dealer) in s.pub.accusations
    || AccusationKey(s.keyper, dealer) in s.pub.apologies
    || (exists key :: BadApology(s.pub, dealer, key))
    || !Verifies(s.pub.q, s.keyper, 0, s.pub.commitments[dealer].value, s.pub.threshold)
  }

  /** Loading does no harm as far as the dealer goes. */
  ghost predicate MildFor(s: State, dealer: nat)
    requires s.Valid() && dealer < s.pub.numKeypers
  {
    if s.pub.commitments[dealer].None? then Involved(s.pub, dealer)
    else s.evals[dealer].Some? || ValueIdle(s, dealer)
  }

  /** Loading the saved DKG does no harm: while dealing everything must have arrived;
      later what is missing must have become irrelevant. */
  ghost predicate Mild(s: State)
    requires s.Valid()
  {
    if Rank(s.phase) <= Rank(Dealing) then AllPresent(s)
    else forall d :: 0 <= d < s.pub.numKeypers ==> MildFor(s, d)
  }

  // ----- DKGs with the same outcome

  /** The dealer's entries are the same, or differ where it does not matter. */
  ghost predicate AlikeFor(s: State, t: State, dealer: nat)
    requires s.Valid() && t.Valid() && SameKeyper(s, t) && dealer < s.pub.numKeypers
  {
    var c, c' := s.pub.commitments[dealer], t.pub.commitments[dealer];
    if c == c' then
      s.evals[dealer] == t.evals[dealer]
      || (if c.None? then Involved(t.pub, dealer)
          else s.evals[dealer] == Some(0) && t.evals[dealer].None? && ValueIdle(t, dealer))
    else c == Some(NO_COMMITMENT) && c'.None? && Involved(t.pub, dealer)
  }

  /** The DKG is the ideal one, up to what loading may have changed without harm. */
  ghost predicate Alike(s: State, t: State) {
    && s.Valid() && t.Valid() && SameKeyper(s, t) && s.phase == t.phase && s.polynomial == t.polynomial
    && s.pub.accusations == t.pub.accusations && s.pub.apologies == t.pub.apologies
    && (s == t || Rank(s.phase) > Rank(Dealing))
    && forall d :: 0 <= d < s.pub.numKeypers ==> AlikeFor(s, t, d)
  }

  /** Both succeed or neither does, and with the same result. */
  ghost predicate SameOutcome(s: State, t: State) {
    && s.Valid() && t.Valid() && (Succeeds(s) <==> Succeeds(t))
    && (forall r :: IsResult(s, r) <==> IsResult(t, r))
  }

  /** Both find the same dealers corrupt. */
  ghost predicate SameVerdicts(s: State, t: State) {
    && s.Valid() && t.Valid() && s.pub.numKeypers == t.pub.numKeypers
    && forall d :: 0 <= d < s.pub.numKeypers ==> (Corrupt(s.pub, d) <==> Corrupt(t.pub, d))
  }

  lemma EmptyNeverVerifies(q: int, x: nat, v: int, threshold: nat)
    requires q > 0 && threshold >= 1
    ensures !Verifies(q, x, v, NO_COMMITMENT, threshold)
  {
  }

  lemma AlikeCorrupt(s: State, t: State, dealer: nat)
    requires Alike(s, t) && dealer < s.pub.numKeypers && s.pub.threshold >= 1
    ensures Corrupt(s.pub, dealer) <==> Corrupt(t.pub, dealer)
  {
    assert AlikeFor(s, t, dealer);
    if s.pub.commitments[dealer] == t.pub.commitments[dealer] {
      if s.pub.commitments[dealer].Some? {
        assert forall key :: BadApology(s.pub, dealer, key) <==> BadApology(t.pub, dealer, key);
        assert forall key :: Unanswered(s.pub, dealer, key) <==> Unanswered(t.pub, dealer, key);
      }
    } else {
      EmptyInvolvedCorrupt(s.pub, dealer);
    }
  }

  /** A dealer with an empty commitment is corrupt as soon as it is accused. */
  lemma EmptyInvolvedCorrupt(b: Broadcast, dealer: nat)
    requires b.Valid() && dealer < b.numKeypers && b.threshold >= 1
    requires b.commitments[dealer] == Some(NO_COMMITMENT) && Involved(b, dealer)
    ensures Corrupt(b, dealer)
  {
    var key: AccusationKey :| key.accused == dealer && (key in b.accusations || key in b.apologies);
    if key in b.apologies {
      EmptyNeverVerifies(b.q, key.accuser, b.apologies[key], b.threshold);
      assert BadApology(b, dealer, key);
    } else {
      assert Unanswered(b, dealer, key);
    }
  }

  lemma AlikeDealer(s: State, t: State, dealer: nat)
    requires Alike(s, t) && dealer < s.pub.numKeypers && s.pub.threshold >= 1
    ensures HiddenCorrupt(s, dealer) <==> HiddenCorrupt(t, dealer)
    ensures FinalCommitment(s.pub, dealer) == FinalCommitment(t.pub, dealer)
    ensures FinalEval(s, dealer) == FinalEval(t, dealer)
  {
    AlikeCorrupt(s, t, dealer);
    assert AlikeFor(s, t, dealer);
    if !Corrupt(s.pub, dealer) {
      var key := AccusationKey(s.keyper, dealer);
      if key in t.pub.accusations && key !in t.pub.apologies {
        assert Unanswered(t.pub, dealer, key);
      }
    }
  }

  lemma {:induction false} AlikeUpTo(s: State, t: State, n: nat)
    requires Alike(s, t) && n <= s.pub.numKeypers && s.pub.threshold >= 1
    ensures FinalCommitments(s.pub, n) == FinalCommitments(t.pub, n)
    ensures FinalEvals(s, n) == FinalEvals(t, n)
    ensures Participants(s.pub, n) == Participants(t.pub, n)
  {
    if n > 0 {
      AlikeUpTo(s, t, n - 1);
      AlikeDealer(s, t, n - 1);
      AlikeCorrupt(s, t, n - 1);
    }
  }

  lemma AlikeOutcome(s: State, t: State)
    requires Alike(s, t) && s.pub.threshold >= 1
    ensures SameOutcome(s, t) && SameVerdicts(s, t)
  {
    AlikeUpTo(s, t, s.pub.numKeypers);
    forall d | 0 <= d < s.pub.numKeypers
      ensures HiddenCorrupt(s, d) <==> HiddenCorrupt(t, d)
      ensures Corrupt(s.pub, d) <==> Corrupt(t.pub, d)
    {
      AlikeDealer(s, t, d);
      AlikeCorrupt(s, t, d);
    }
  }

  /** Loading a DKG that it does not harm. */
  lemma ReloadAlike(s: State, t: State)
    requires Alike(s, t) && Mild(s)
    ensures Alike(Reloaded(s), t)
  {
    var r := Reloaded(s);
    if Rank(s.phase) <= Rank(Dealing) {
      assert r.evals == s.evals && r.pub.commitments == s.pub.commitments;
    } else {
      forall d | 0 <= d < s.pub.numKeypers
        ensures AlikeFor(r, t, d)
      {
        assert AlikeFor(s, t, d) && MildFor(s, d);
        if s.pub.commitments[d].Some? && s.pub.commitments[d] == t.pub.commitments[d] && s.evals[d].None? {
          SameIdle(s, t, d);
        }
      }
    }
  }

  lemma SameIdle(s: State, t: State, d: nat)
    requires Alike(s, t) && d < s.pub.numKeypers && s.pub.commitments[d].Some?
    requires s.pub.commitments[d] == t.pub.commitments[d] && ValueIdle(s, d)
    ensures ValueIdle(t, d)
  {
    if exists key :: BadApology(s.pub, d, key) {
      var key :| BadApology(s.pub, d, key);
      assert BadApology(t.pub, d, key);
    }
  }

  // ----- steps

  /** After dealing a step only adds accusations and apologies. */
  lemma LateStep(env: Env, s: State, eon: DKGEon, c: int, c': int)
    requires s.Valid() && s.pub.numKeypers == |env.keypers| && c <= c'
    requires s.phase == env.PhaseOf(c + 1) && Rank(s.phase) > Rank(Dealing)
    ensures SyncDKG(env, s, eon, c + 1, c') ==
      WithApologies(WithAccusations(s, Accusations(env, AsOff(s), Window(eon.accusations, c + 1, c'))),
                    Apologies(env, AsOff(s), Window(eon.apologies, c + 1, c'))).(phase := env.PhaseOf(c' + 1))
  {
    var b, wc, we := AsOff(s), Window(eon.commitments, c + 1, c'), Window(eon.polyEvals, c + 1, c');
    SyncByParts(env, s, eon, c + 1, c');
    WindowHeights(eon.commitments, c + 1, c');
    WithoutBelow(env, wc, c + 1, c', Dealing);
    CommitmentsSkip(env, b, wc);
    WindowHeights(eon.polyEvals, c + 1, c');
    WithoutBelow(env, we, c + 1, c', Dealing);
    PolyEvalsSkip(env, b, we);
  }

  /** Nothing that is on the chain is taken back. */
  ghost predicate Grown(b: Broadcast, b': Broadcast) {
    && b.accusations <= b'.accusations
    && (forall key :: key in b.apologies ==> key in b'.apologies && b'.apologies[key] == b.apologies[key])
  }

  lemma LateStepGrows(env: Env, s: State, eon: DKGEon, c: int, c': int)
    requires s.Valid() && s.pub.numKeypers == |env.keypers| && c <= c'
    requires s.phase == env.PhaseOf(c + 1) && Rank(s.phase) > Rank(Dealing)
    ensures Grown(s.pub, SyncDKG(env, s, eon, c + 1, c').pub)
  {
    LateStep(env, s, eon, c, c');
    var wa, wp := Window(eon.accusations, c + 1, c'), Window(eon.apologies, c + 1, c');
    forall key | key in s.pub.accusations
      ensures key in Accusations(env, AsOff(s), wa).pub.accusations
    {
      AccusationsExact(env, AsOff(s), wa, key);
    }
    forall key | key in s.pub.apologies
      ensures Entry(Apologies(env, AsOff(s), wp).pub.apologies, key) == Some(s.pub.apologies[key])
    {
      ApologiesExact(env, AsOff(s), wp, key);
    }
  }

  lemma IdleStays(s: State, t: State, d: nat)
    requires s.Valid() && t.Valid() && SameKeyper(s, t) && d < s.pub.numKeypers && Grown(s.pub, t.pub)
    requires s.pub.commitments[d].Some? && t.pub.commitments[d] == s.pub.commitments[d] && ValueIdle(s, d)
    ensures ValueIdle(t, d)
  {
    if exists key :: BadApology(s.pub, d, key) {
      var key :| BadApology(s.pub, d, key);
      assert BadApology(t.pub, d, key);
    }
  }

  lemma InvolvedStays(b: Broadcast, b': Broadcast, d: nat)
    requires Grown(b, b') && Involved(b, d)
    ensures Involved(b', d)
  {
  }

  lemma AlikeReflexive(s: State)
    requires s.Valid()
    ensures Alike(s, s)
  {
  }

  lemma LateStepKeepsAlike(env: Env, s: State, t: State, eon: DKGEon, c: int, c': int)
    requires Alike(s, t) && s.pub.numKeypers == |env.keypers| && c <= c'
    requires s.phase == env.PhaseOf(c + 1) && Rank(s.phase) > Rank(Dealing)
    ensures Alike(SyncDKG(env, s, eon, c + 1, c'), SyncDKG(env, t, eon, c + 1, c'))
  {
    LateStep(env, s, eon, c, c');
    LateStep(env, t, eon, c, c');
    LateStepGrows(env, t, eon, c, c');
    PhaseMonotone(env.plen, c + 1, c' + 1, env.start);
    AccusationsFrame(env, AsOff(s), AsOff(t), Window(eon.accusations, c + 1, c'));
    AccusationsFrame(env, AsOff(t), AsOff(t), Window(eon.accusations, c + 1, c'));
    ApologiesFrame(env, AsOff(s), AsOff(t), Window(eon.apologies, c + 1, c'));
    ApologiesFrame(env, AsOff(t), AsOff(t), Window(eon.apologies, c + 1, c'));
    var s', t' := SyncDKG(env, s, eon, c + 1, c'), SyncDKG(env, t, eon, c + 1, c');
    forall d | 0 <= d < s.pub.numKeypers
      ensures AlikeFor(s', t', d)
    {
      AlikeForStays(s, t, s', t', d);
    }
  }

  lemma AlikeForStays(s: State, t: State, s': State, t': State, d: nat)
    requires s.Valid() && t.Valid() && s'.Valid() && t'.Valid() && SameKeyper(s, t) && SameKeyper(s', t')
    requires SameKeyper(t, t') && d < s.pub.numKeypers && AlikeFor(s, t, d) && Grown(t.pub, t'.pub)
    requires s'.evals == s.evals && t'.evals == t.evals
    requires s'.pub.commitments == s.pub.commitments && t'.pub.commitments == t.pub.commitments
    ensures AlikeFor(s', t', d)
  {
    if Involved(t.pub, d) {
      InvolvedStays(t.pub, t'.pub, d);
    }
    if t.pub.commitments[d].Some? && ValueIdle(t, d) {
      IdleStays(t, t', d);
    }
  }

  /** A DKG that is like the ideal one stays like it through every step. */
  lemma StepKeepsAlike(env: Env, s: State, t: State, eon: DKGEon, c: int, c': int)
    requires Alike(s, t) && s.pub.numKeypers == |env.keypers| && c <= c'
    requires s.phase == env.PhaseOf(c + 1)
    ensures Alike(SyncDKG(env, s, eon, c + 1, c'), SyncDKG(env, t, eon, c + 1, c'))
    ensures SameKeyper(s, SyncDKG(env, s, eon, c + 1, c'))
  {
    SyncByParts(env, s, eon, c + 1, c');
    if s == t {
      AlikeReflexive(SyncDKG(env, s, eon, c + 1, c'));
    } else {
      LateStepKeepsAlike(env, s, t, eon, c, c');
    }
  }
}
