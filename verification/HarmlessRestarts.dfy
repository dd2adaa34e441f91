/** Exactly when a restart in the middle of a DKG is harmless: on every chain, a keyper
    that loads the saved DKG ends with the outcome it would have had without. */
module HarmlessRestarts {
  import opened Modular
  import opened Addresses
  import opened Outcome
  import opened Groups
  import opened Feldman
  import opened Keys
  import opened Observe
  import opened DistributedKeyGeneration
  import opened KeyperSync
  import opened Chunking
  import opened Restarts
  import opened Chains
  import Encryption

  /** A DKG as it may be saved at block c, before it has finished. */
  ghost predicate Saved(env: Env, s: State, c: int) {
    && s.Valid() && s.pub.numKeypers == |env.keypers| && s.pub.threshold >= 1 && Distinct(env.keypers)
    && s.phase == env.PhaseOf(c + 1) && Rank(Dealing) <= Rank(s.phase) < Rank(Finalized)
    && (s.phase == Dealing ==> s.pub.accusations == {} && s.pub.apologies == map[])
    && (forall key :: key in s.pub.accusations ==> key.accuser < |env.keypers|)
    && FullDegrees(s) && s.evals[s.keyper].Some?
  }

  /** Commitments of another degree are not accepted. */
  ghost predicate FullDegrees(s: State)
    requires s.Valid()
  {
    forall d :: 0 <= d < s.pub.numKeypers && s.pub.commitments[d].Some? ==>
      Degree(s.pub.commitments[d].value) == DegreeFromThreshold(s.pub.threshold)
  }

  lemma {:induction false} FirstHasDegree(env: Env, s: State, evs: seq<At<CommitmentMsg>>, d: nat)
    ensures FirstCommitment(env, s, evs, d).Some? ==>
      Degree(FirstCommitment(env, s, evs, d).value) == DegreeFromThreshold(s.pub.threshold)
    decreases |evs|
  {
    if evs != [] {
      FirstHasDegree(env, s, evs[1..], d);
    }
  }

  lemma StepHasDegrees(env: Env, initial: State, eon: DKGEon, c: int, s: State)
    requires ValidSetting(env, initial, eon) && env.start <= c && initial.pub.accusations == {}
    requires forall d :: 0 <= d < |env.keypers| ==> initial.pub.commitments[d].None?
    requires s == SyncDKG(env, initial, eon, env.start, c)
    ensures s.Valid() && FullDegrees(s)
  {
    SyncByParts(env, initial, eon, env.start, c);
    forall d | 0 <= d < s.pub.numKeypers && s.pub.commitments[d].Some?
      ensures Degree(s.pub.commitments[d].value) == DegreeFromThreshold(s.pub.threshold)
    {
      ViewReadOffChain(env, initial, eon, c, d, AccusationKey(0, 0));
      FirstHasDegree(env, initial, Window(eon.commitments, env.start, c), d);
    }
  }

  /** What a step reads before a phase begins contains nothing of that phase. */
  lemma NothingEarly(env: Env, initial: State, eon: DKGEon, c: int, s: State)
    requires ValidSetting(env, initial, eon) && env.start <= c && env.PhaseOf(c + 1) == Dealing
    requires initial.pub.accusations == {} && initial.pub.apologies == map[]
    requires s == SyncDKG(env, initial, eon, env.start, c)
    ensures s.pub.accusations == {} && s.pub.apologies == map[]
  {
    SyncByParts(env, initial, eon, env.start, c);
    var b := AsOff(Begun(env, initial, env.PhaseOf(c + 1)));
    var wa, wp := Window(eon.accusations, env.start, c), Window(eon.apologies, env.start, c);
    PhaseMonotone(env.plen, c, c + 1, env.start);
    WindowHeights(eon.accusations, env.start, c);
    WithoutBelow(env, wa, env.start, c, Accusing);
    AccusationsSkip(env, b, wa);
    WindowHeights(eon.apologies, env.start, c);
    WithoutBelow(env, wp, env.start, c, Apologizing);
    ApologiesSkip(env, b, wp);
  }

  /** Any DKG that a step from the eon's start makes is of this kind. */
  lemma StepMakesSaved(env: Env, initial: State, eon: DKGEon, c: int)
    requires ValidSetting(env, initial, eon) && env.start <= c && initial.pub.threshold >= 1 && Distinct(env.keypers)
    requires initial == NewState(initial.pub.q, initial.eon, |env.keypers|, initial.pub.threshold, initial.keyper)
    requires Rank(Dealing) <= Rank(env.PhaseOf(c + 1)) < Rank(Finalized)
    ensures Saved(env, SyncDKG(env, initial, eon, env.start, c), c)
  {
    var s := SyncDKG(env, initial, eon, env.start, c);
    SyncByParts(env, initial, eon, env.start, c);
    StepHasDegrees(env, initial, eon, c, s);
    OwnValue(env, initial, eon, c, s);
    forall key | key in s.pub.accusations
      ensures key.accuser < |env.keypers|
    {
      ViewReadOffChain(env, initial, eon, c, initial.keyper, key);
    }
    if s.phase == Dealing {
      NothingEarly(env, initial, eon, c, s);
    }
  }

  ghost predicate HarmlessOn(env: Env, s: State, eon: DKGEon, c: int, c': int)
    requires s.Valid() && s.pub.numKeypers == |env.keypers|
  {
    SameOutcome(SyncDKG(env, Reloaded(s), eon, c + 1, c'), SyncDKG(env, s, eon, c + 1, c'))
  }

  /** On every chain the keyper finishes with the same outcome with and without loading
      the DKG it saved at block c. */
  ghost predicate Harmless(env: Env, s: State, c: int)
    requires s.Valid() && s.pub.numKeypers == |env.keypers|
  {
    forall eon: DKGEon, c' :: eon.SortedLists() && c <= c' && env.PhaseOf(c' + 1) == Finalized ==>
      HarmlessOn(env, s, eon, c, c')
  }

  lemma MildIsHarmlessOn(env: Env, s: State, eon: DKGEon, c: int, c': int)
    requires Saved(env, s, c) && Mild(s) && c <= c'
    ensures HarmlessOn(env, s, eon, c, c')
  {
    AlikeReflexive(s);
    ReloadAlike(s, s);
    StepKeepsAlike(env, Reloaded(s), s, eon, c, c');
    AlikeOutcome(SyncDKG(env, Reloaded(s), eon, c + 1, c'), SyncDKG(env, s, eon, c + 1, c'));
  }

  lemma MildIsHarmless(env: Env, s: State, c: int)
    requires Saved(env, s, c) && Mild(s)
    ensures Harmless(env, s, c)
  {
    forall eon: DKGEon, c' | eon.SortedLists() && c <= c' && env.PhaseOf(c' + 1) == Finalized
      ensures HarmlessOn(env, s, eon, c, c')
    {
      MildIsHarmlessOn(env, s, eon, c, c');
    }
  }

  // ----- dealers that are judged alike

  /** Nothing new has been said about the dealer. */
  ghost predicate SameMatters(b: Broadcast, b': Broadcast, e: nat) {
    forall key: AccusationKey :: key.accused == e ==>
      && (key in b.accusations <==> key in b'.accusations)
      && Entry(b.apologies, key) == Entry(b'.apologies, key)
  }

  lemma SameDealer(x: State, u: State, e: nat)
    requires x.Valid() && u.Valid() && SameKeyper(x, u) && e < x.pub.numKeypers && SameMatters(x.pub, u.pub, e)
    requires x.pub.commitments[e] == u.pub.commitments[e] && (u.evals[e].Some? ==> x.evals[e] == u.evals[e])
    ensures Corrupt(x.pub, e) <==> Corrupt(u.pub, e)
    ensures !HiddenCorrupt(u, e) ==> !HiddenCorrupt(x, e)
  {
    forall key: AccusationKey | key.accused == e
      ensures Unanswered(x.pub, e, key) <==> Unanswered(u.pub, e, key)
      ensures x.pub.commitments[e].Some? ==> (BadApology(x.pub, e, key) <==> BadApology(u.pub, e, key))
      ensures key in x.pub.apologies <==> key in u.pub.apologies
      ensures key in x.pub.apologies ==> x.pub.apologies[key] == u.pub.apologies[key]
    {
      assert Entry(x.pub.apologies, key) == Entry(u.pub.apologies, key);
    }
  }

  lemma {:induction false} FewerCorrupt(b: Broadcast, b': Broadcast, n: nat)
    requires b.Valid() && b'.Valid() && n <= b.numKeypers == b'.numKeypers
    requires forall d :: 0 <= d < n && Corrupt(b', d) ==> Corrupt(b, d)
    ensures Participants(b', n) >= Participants(b, n)
  {
    if n > 0 {
      FewerCorrupt(b, b', n - 1);
    }
  }

  /** Success carries over if each dealer fares no worse. */
  lemma SucceedsToo(x: State, u: State)
    requires u.Valid() && Succeeds(u) && x.Valid() && SameKeyper(x, u) && x.phase == Finalized
    requires forall e :: 0 <= e < x.pub.numKeypers ==> !HiddenCorrupt(x, e) && (Corrupt(x.pub, e) ==> Corrupt(u.pub, e))
    ensures Succeeds(x)
  {
    FewerCorrupt(u.pub, x.pub, x.pub.numKeypers);
  }

  // ----- after dealing: a dealer without a commitment that has not come up

  ghost function AccusationsBut(u: Broadcast, d: nat): set<AccusationKey> {
    set key | key in u.accusations && key.accused != d
  }

  ghost function ApologiesBut(u: Broadcast, d: nat): map<AccusationKey, int> {
    map key | key in u.apologies && key.accused != d :: u.apologies[key]
  }

  /** On a chain that is silent on the dealer, it counts as corrupt, and the keyper
      succeeds as on the chain it was taken from. */
  lemma SilenceSucceeds(s: State, u: State, d: nat, x: State)
    requires s.Valid() && u.Valid() && Succeeds(u) && u == Final(s, u.pub.accusations, u.pub.apologies)
    requires d < s.pub.numKeypers && s.pub.commitments[d].None?
    requires x == Final(s, AccusationsBut(u.pub, d), ApologiesBut(u.pub, d))
    ensures Succeeds(x)
  {
    forall e | 0 <= e < x.pub.numKeypers
      ensures !HiddenCorrupt(x, e) && (Corrupt(x.pub, e) ==> Corrupt(u.pub, e))
    {
      assert !HiddenCorrupt(u, e);
      if e != d {
        SameDealer(x, u, e);
      }
    }
    SucceedsToo(x, u);
  }

  /** After loading the dealer has a commitment that nobody can match. */
  lemma EmptyUninvolvedFails(x: State, d: nat)
    requires x.Valid() && x.pub.threshold >= 1 && d < x.pub.numKeypers
    requires x.pub.commitments[d] == Some(NO_COMMITMENT) && !Involved(x.pub, d)
    ensures !Succeeds(x)
  {
    var e := ReceivedEval(x, d);
    if e.Some? {
      EmptyNeverVerifies(x.pub.q, x.keyper, e.value, x.pub.threshold);
    }
    assert forall key :: !BadApology(x.pub, d, key) && !Unanswered(x.pub, d, key);
    assert HiddenCorrupt(x, d);
  }

  ghost predicate SucceedsOn(env: Env, s: State, eon: DKGEon, c: int, c': int)
    requires s.Valid() && s.pub.numKeypers == |env.keypers|
  {
    && eon.SortedLists() && c <= c' && env.PhaseOf(c' + 1) == Finalized
    && Succeeds(SyncDKG(env, s, eon, c + 1, c'))
  }

  lemma LateSaved(env: Env, s: State, c: int, l: int)
    requires Saved(env, s, c) && env.plen == ConstantPhaseLength(l) && l >= 1 && Rank(s.phase) > Rank(Dealing)
    ensures AfterDealing(env, s, c, l) && AfterDealing(env, Reloaded(s), c, l)
  {
  }

  lemma SilenceExtends(env: Env, s: State, u: Broadcast, d: nat)
    requires s.Valid() && Extends(env, s, u.accusations, u.apologies) && !Involved(s.pub, d)
    ensures Extends(env, s, AccusationsBut(u, d), ApologiesBut(u, d))
  {
    assert forall key :: key in s.pub.accusations ==> key.accused != d;
    assert forall key :: key in s.pub.apologies ==> key.accused != d;
    if s.phase == Apologizing {
      assert AccusationsBut(u, d) == s.pub.accusations;
    }
  }

  lemma UninvolvedHarms(env: Env, s: State, c: int, l: int, d: nat, eon: DKGEon, c': int)
    requires Saved(env, s, c) && env.plen == ConstantPhaseLength(l) && l >= 1 && Rank(s.phase) > Rank(Dealing)
    requires d < s.pub.numKeypers && s.pub.commitments[d].None? && !Involved(s.pub, d)
    requires SucceedsOn(env, s, eon, c, c')
    ensures !Harmless(env, s, c)
  {
    var u, r := SyncDKG(env, s, eon, c + 1, c'), Reloaded(s);
    LateSaved(env, s, c, l);
    LateExtends(env, s, eon, c, c');
    SilenceExtends(env, s, u.pub, d);
    var accusations, apologies := AccusationsBut(u.pub, d), ApologiesBut(u.pub, d);
    var chain := LateChain(env, s.pub, accusations, apologies, c);
    LateReached(env, s, accusations, apologies, c, l, chain);
    LateReached(env, r, accusations, apologies, c, l, chain);
    SilenceSucceeds(s, u, d, Final(s, accusations, apologies));
    EmptyUninvolvedFails(Final(r, accusations, apologies), d);
    BlocksInPhase(env, c, l);
    assert !HarmlessOn(env, s, chain, c, EndBlock(env, c));
  }

  // ----- after dealing: a missing value that 0 would pass for

  /** Every dealer that is missing a commitment has been accused or has apologized. */
  ghost predicate AllInvolved(s: State)
    requires s.Valid()
  {
    forall d :: 0 <= d < s.pub.numKeypers && s.pub.commitments[d].None? ==> Involved(s.pub, d)
  }

  /** The keyper has no value from d, is not owed one, and knows no wrong answer by d;
      0 would pass for d's value. */
  ghost predicate Deceived(s: State, d: nat) {
    s.Valid() && d < s.pub.numKeypers && s.pub.commitments[d].Some? && s.evals[d].None? && !ValueIdle(s, d)
  }

  /** Against d nothing new is said ... */
  ghost function AccusationsKept(s: Broadcast, u: Broadcast, d: nat): set<AccusationKey> {
    set key | key in u.accusations && (key.accused != d || key in s.accusations)
  }

  ghost function RightValue(s: State, d: nat, accuser: nat): int
    requires s.Valid() && d < s.pub.numKeypers && s.pub.commitments[d].Some?
  {
    PolyValue(s.pub.commitments[d].value, KeyperX(accuser)) % s.pub.q
  }

  ghost function AnsweredKeys(s: Broadcast, u: Broadcast, d: nat): set<AccusationKey> {
    (set key | key in u.apologies && (key.accused != d || key in s.apologies))
    + (set key | key in s.accusations && key.accused == d)
  }

  /** ... and it answers all accusations rightly. */
  ghost function ApologiesAnswered(s: State, u: Broadcast, d: nat): map<AccusationKey, int>
    requires s.Valid() && d < s.pub.numKeypers && s.pub.commitments[d].Some?
  {
    map key | key in AnsweredKeys(s.pub, u, d) ::
      if key in u.apologies && (key.accused != d || key in s.pub.apologies) then u.apologies[key]
      else RightValue(s, d, key.accuser)
  }

  lemma AnsweredExtends(env: Env, s: State, u: Broadcast, d: nat)
    requires s.Valid() && s.pub.numKeypers == |env.keypers| && Extends(env, s, u.accusations, u.apologies)
    requires Deceived(s, d) && forall key :: key in s.pub.accusations ==> key.accuser < |env.keypers|
    ensures Extends(env, s, AccusationsKept(s.pub, u, d), ApologiesAnswered(s, u, d))
  {
    if s.phase == Apologizing {
      assert AccusationsKept(s.pub, u, d) == s.pub.accusations;
    }
  }

  lemma RightValueVerifies(s: State, d: nat, x: nat)
    requires s.Valid() && d < s.pub.numKeypers && s.pub.commitments[d].Some?
    requires Degree(s.pub.commitments[d].value) == DegreeFromThreshold(s.pub.threshold)
    ensures Verifies(s.pub.q, x, RightValue(s, d, x), s.pub.commitments[d].value, s.pub.threshold)
  {
    var v := PolyValue(s.pub.commitments[d].value, KeyperX(x));
    CongMod(s.pub.q, v);
    CongSym(s.pub.q, v % s.pub.q, v);
  }

  /** Then nobody has anything against d. */
  lemma AnsweredNotCorrupt(s: State, u: Broadcast, d: nat, x: State)
    requires Deceived(s, d) && FullDegrees(s) && x.Valid() && SameKeyper(s, x)
    requires forall key :: key in s.pub.apologies ==> key in u.apologies && u.apologies[key] == s.pub.apologies[key]
    requires x.pub.accusations == AccusationsKept(s.pub, u, d) && x.pub.apologies == ApologiesAnswered(s, u, d)
    requires x.pub.commitments[d] == s.pub.commitments[d]
    ensures !Corrupt(x.pub, d) && AccusationKey(s.keyper, d) !in x.pub.apologies
  {
    forall key | key in x.pub.apologies && key.accused == d
      ensures !BadApology(x.pub, d, key)
    {
      if key in s.pub.apologies {
        assert !BadApology(s.pub, d, key);
      } else {
        RightValueVerifies(s, d, key.accuser);
      }
    }
    assert forall key :: !Unanswered(x.pub, d, key);
  }

  /** A dealer other than d fares after loading as it does on the chain that the rest was
      taken from. */
  lemma OtherDealer(s: State, u: State, d: nat, y: State, e: nat)
    requires s.Valid() && s.pub.threshold >= 1 && AllInvolved(s) && Deceived(s, d)
    requires u.Valid() && u == Final(s, u.pub.accusations, u.pub.apologies) && Grown(s.pub, u.pub)
    requires y == Final(Reloaded(s), AccusationsKept(s.pub, u.pub, d), ApologiesAnswered(s, u.pub, d))
    requires e < s.pub.numKeypers && e != d && !HiddenCorrupt(u, e)
    ensures y.Valid() && !HiddenCorrupt(y, e) && (Corrupt(y.pub, e) ==> Corrupt(u.pub, e))
  {
    assert SameMatters(y.pub, u.pub, e);
    if s.pub.commitments[e].None? {
      var key: AccusationKey :| key.accused == e && (key in s.pub.accusations || key in s.pub.apologies);
      assert key in y.pub.accusations || key in y.pub.apologies;
      EmptyInvolvedCorrupt(y.pub, e);
    } else {
      SameDealer(y, u, e);
    }
  }

  lemma DeceptionSucceeds(s: State, u: State, d: nat, y: State)
    requires s.Valid() && s.pub.threshold >= 1 && AllInvolved(s) && Deceived(s, d) && FullDegrees(s)
    requires u.Valid() && Succeeds(u) && u == Final(s, u.pub.accusations, u.pub.apologies) && Grown(s.pub, u.pub)
    requires y == Final(Reloaded(s), AccusationsKept(s.pub, u.pub, d), ApologiesAnswered(s, u.pub, d))
    ensures Succeeds(y)
  {
    AnsweredNotCorrupt(s, u.pub, d, y);
    forall e | 0 <= e < y.pub.numKeypers
      ensures !HiddenCorrupt(y, e) && (Corrupt(y.pub, e) ==> Corrupt(u.pub, e))
    {
      if e != d {
        assert !HiddenCorrupt(u, e);
        OtherDealer(s, u, d, y, e);
      }
    }
    SucceedsToo(y, u);
  }

  /** Without loading the keyper lacks d's value. */
  lemma DeceptionFails(s: State, u: Broadcast, d: nat, x: State)
    requires Deceived(s, d) && FullDegrees(s) && Grown(s.pub, u)
    requires x == Final(s, AccusationsKept(s.pub, u, d), ApologiesAnswered(s, u, d))
    ensures !Succeeds(x)
  {
    AnsweredNotCorrupt(s, u, d, x);
    assert HiddenCorrupt(x, d);
  }

  lemma DeceptionHarms(env: Env, s: State, c: int, l: int, d: nat, eon: DKGEon, c': int)
    requires Saved(env, s, c) && env.plen == ConstantPhaseLength(l) && l >= 1 && Rank(s.phase) > Rank(Dealing)
    requires AllInvolved(s) && Deceived(s, d) && SucceedsOn(env, s, eon, c, c')
    ensures !Harmless(env, s, c)
  {
    var u, r := SyncDKG(env, s, eon, c + 1, c'), Reloaded(s);
    LateSaved(env, s, c, l);
    LateExtends(env, s, eon, c, c');
    AnsweredExtends(env, s, u.pub, d);
    var accusations, apologies := AccusationsKept(s.pub, u.pub, d), ApologiesAnswered(s, u.pub, d);
    var chain := LateChain(env, s.pub, accusations, apologies, c);
    LateReached(env, s, accusations, apologies, c, l, chain);
    LateReached(env, r, accusations, apologies, c, l, chain);
    DeceptionFails(s, u.pub, d, Final(s, accusations, apologies));
    DeceptionSucceeds(s, u, d, Final(r, accusations, apologies));
    BlocksInPhase(env, c, l);
    assert !HarmlessOn(env, s, chain, c, EndBlock(env, c));
  }

  // ----- while dealing

  /** The accusations by keyper k against everybody but d. */
  ghost function AgainstOthers(k: nat, d: nat, n: nat): (keys: set<AccusationKey>)
    ensures forall key :: key in keys <==> key.accuser == k && key.accused < n && key.accused != d
  {
    set e | 0 <= e < n && e != d :: AccusationKey(k, e)
  }

  /** All others answer keyper k with the right value. */
  ghost function OthersAnswers(q: int, cs: seq<Option<Gammas>>, k: nat, d: nat): (answers: map<AccusationKey, int>)
    requires q > 0 && forall e :: 0 <= e < |cs| ==> cs[e].Some?
    ensures answers.Keys == AgainstOthers(k, d, |cs|)
  {
    map key | key in AgainstOthers(k, d, |cs|) :: PolyValue(cs[key.accused].value, KeyperX(k)) % q
  }

  /** Every dealer has published a commitment of the right degree, and all but d have
      answered this keyper. */
  ghost predicate OthersSettled(x: State, d: nat) {
    && x.Valid() && x.phase == Finalized && d < x.pub.numKeypers && FullDegrees(x)
    && (forall e :: 0 <= e < x.pub.numKeypers ==> x.pub.commitments[e].Some?)
    && x.pub.apologies == OthersAnswers(x.pub.q, x.pub.commitments, x.keyper, d)
    && x.pub.accusations == x.pub.apologies.Keys
  }

  lemma SettledDealer(x: State, d: nat, e: nat)
    requires OthersSettled(x, d) && e < x.pub.numKeypers
    ensures !Corrupt(x.pub, e) && (e != d ==> !HiddenCorrupt(x, e))
  {
    forall key | key in x.pub.apologies && key.accused == e
      ensures !BadApology(x.pub, e, key)
    {
      RightValueVerifies(x, e, x.keyper);
    }
    assert forall key :: !Unanswered(x.pub, e, key);
    if e != d {
      assert AccusationKey(x.keyper, e) in x.pub.apologies;
      assert !BadApology(x.pub, e, AccusationKey(x.keyper, e));
    }
  }

  /** Then success depends on d's value alone. */
  lemma SettledSucceeds(x: State, d: nat)
    requires OthersSettled(x, d) && x.pub.threshold <= x.pub.numKeypers
    ensures Succeeds(x) <==>
      (x.evals[d].Some? && Verifies(x.pub.q, x.keyper, x.evals[d].value, x.pub.commitments[d].value, x.pub.threshold))
  {
    forall e | 0 <= e < x.pub.numKeypers
      ensures !Corrupt(x.pub, e) && (e != d ==> !HiddenCorrupt(x, e))
    {
      SettledDealer(x, d, e);
    }
    AllHonestParticipate(x.pub, x.pub.numKeypers);
    assert AccusationKey(x.keyper, d) !in x.pub.apologies;
    assert ReceivedEval(x, d) == x.evals[d];
    assert Succeeds(x) <==> !HiddenCorrupt(x, d);
  }

  /** The constant polynomial v with as many coefficients as any. */
  function Constant(v: int, threshold: nat): (g: Gammas)
    requires threshold >= 1
    ensures Degree(g) == DegreeFromThreshold(threshold)
  {
    [v] + seq(threshold - 1, _ => 0)
  }

  lemma ConstantVerifies(q: int, x: nat, v: int, threshold: nat)
    requires q > 0 && threshold >= 1
    ensures Verifies(q, x, v, Constant(v, threshold), threshold)
  {
    var g := Constant(v, threshold);
    PolyValueHead(g, KeyperX(x));
    assert g[1..] == seq(threshold - 1, _ => 0);
    ZeroPolynomialValue(g[1..], KeyperX(x));
    CongRefl(q, v);
  }

  /** Every value can be sent to this keyper in encrypted form. */
  ghost predicate CanReceive(env: Env, q: int) {
    forall v :: ValidEval(q, v) ==> exists cipher: Encryption.Bytes :: Read(env, Some(cipher)) == Some(v)
  }

  ghost predicate DealingSaved(env: Env, s: State, c: int, l: int) {
    && Saved(env, s, c) && env.plen == ConstantPhaseLength(l) && l >= 1 && s.phase == Dealing
    && s.pub.threshold <= s.pub.numKeypers
  }

  /** The chain on which all dealers publish and all but d answer this keyper, played with
      and without loading. */
  lemma PlayedTwice(env: Env, s: State, c: int, l: int, gs: seq<Gammas>, d: nat, cipher: Option<Encryption.Bytes>,
                    answers: map<AccusationKey, int>, eon: DKGEon)
    requires DealingSaved(env, s, c, l) && Publishable(env, s, gs, d, cipher, answers)
    requires eon == DealingChain(env, s, gs, d, cipher, answers, c)
    requires Succeeds(Played(s, gs, d, Read(env, cipher), answers))
      != Succeeds(Played(Reloaded(s), gs, d, Read(env, cipher), answers))
    ensures !Harmless(env, s, c)
  {
    DealingReached(env, s, gs, d, cipher, answers, c, l, eon);
    DealingReached(env, Reloaded(s), gs, d, cipher, answers, c, l, eon);
    BlocksInPhase(env, c, l);
    assert !HarmlessOn(env, s, eon, c, EndBlock(env, c));
  }

  lemma PlayedSettled(env: Env, s: State, c: int, l: int, gs: seq<Gammas>, d: nat, v: Option<int>,
                      answers: map<AccusationKey, int>)
    requires DealingSaved(env, s, c, l) && |gs| == |env.keypers| && d < |gs|
    requires forall i :: 0 <= i < |gs| ==> Degree(gs[i]) == DegreeFromThreshold(s.pub.threshold)
    requires answers == OthersAnswers(s.pub.q, Completed(s.pub.commitments, gs), s.keyper, d)
    ensures OthersSettled(Played(s, gs, d, v, answers), d)
  {
  }

  lemma AnswersPublishable(env: Env, s: State, c: int, l: int, gs: seq<Gammas>, d: nat, answers: map<AccusationKey, int>)
    requires DealingSaved(env, s, c, l) && |gs| == |env.keypers| && d < |gs|
    requires answers == OthersAnswers(s.pub.q, Completed(s.pub.commitments, gs), s.keyper, d)
    ensures InRange(env.keypers, answers.Keys) && forall key :: key in answers ==> ValidEval(s.pub.q, answers[key])
  {
  }

  /** With a commitment that fits d's value the keyper succeeds. */
  lemma FittingSucceeds(env: Env, s: State, c: int, l: int, gs: seq<Gammas>, d: nat, w: int, v: Option<int>,
                        answers: map<AccusationKey, int>)
    requires DealingSaved(env, s, c, l) && |gs| == |env.keypers| && d < |gs| && s.pub.commitments[d].None?
    requires forall i :: 0 <= i < |gs| ==> gs[i] == Constant(w, s.pub.threshold)
    requires (if s.evals[d].Some? then s.evals[d] else v) == Some(w)
    requires answers == OthersAnswers(s.pub.q, Completed(s.pub.commitments, gs), s.keyper, d)
    ensures Succeeds(Played(s, gs, d, v, answers))
  {
    PlayedSettled(env, s, c, l, gs, d, v, answers);
    ConstantVerifies(s.pub.q, s.keyper, w, s.pub.threshold);
    SettledSucceeds(Played(s, gs, d, v, answers), d);
  }

  /** After loading the commitment comes too late. */
  lemma EmptyFails(env: Env, s: State, c: int, l: int, gs: seq<Gammas>, d: nat, v: Option<int>,
                   answers: map<AccusationKey, int>)
    requires DealingSaved(env, s, c, l) && |gs| == |env.keypers| && d < |gs| && s.pub.commitments[d].None?
    requires answers.Keys == AgainstOthers(s.keyper, d, |gs|)
    ensures !Succeeds(Played(Reloaded(s), gs, d, v, answers))
  {
    var y := Played(Reloaded(s), gs, d, v, answers);
    assert y.pub.commitments[d] == Some(NO_COMMITMENT);
    EmptyUninvolvedFails(y, d);
  }

  /** A commitment is missing: the dealer may still publish one that fits the value it has
      sent, or will send. */
  lemma MissingCommitmentHarms(env: Env, s: State, c: int, l: int, d: nat)
    requires DealingSaved(env, s, c, l) && CanReceive(env, s.pub.q)
    requires d < s.pub.numKeypers && s.pub.commitments[d].None?
    ensures !Harmless(env, s, c)
  {
    var q, n, t := s.pub.q, s.pub.numKeypers, s.pub.threshold;
    var w := if s.evals[d].Some? then s.evals[d].value else 0;
    var gs := seq(n, _ => Constant(w, t));
    var cipher := None;
    if s.evals[d].None? {
      assert ValidEval(q, 0);
      var z: Encryption.Bytes :| Read(env, Some(z)) == Some(0);
      cipher := Some(z);
    }
    var v, answers := Read(env, cipher), OthersAnswers(q, Completed(s.pub.commitments, gs), s.keyper, d);
    AnswersPublishable(env, s, c, l, gs, d, answers);
    FittingSucceeds(env, s, c, l, gs, d, w, v, answers);
    EmptyFails(env, s, c, l, gs, d, v, answers);
    PlayedTwice(env, s, c, l, gs, d, cipher, answers, DealingChain(env, s, gs, d, cipher, answers, c));
  }

  /** A value is missing: it may still come, or not. */
  lemma MissingValueHarms(env: Env, s: State, c: int, l: int, d: nat)
    requires DealingSaved(env, s, c, l) && CanReceive(env, s.pub.q)
    requires forall e :: 0 <= e < s.pub.numKeypers ==> s.pub.commitments[e].Some?
    requires d < s.pub.numKeypers && s.evals[d].None?
    ensures !Harmless(env, s, c)
  {
    var q, n, t, r := s.pub.q, s.pub.numKeypers, s.pub.threshold, Reloaded(s);
    var g, gs := s.pub.commitments[d].value, seq(n, _ => Constant(0, t));
    var cipher := None;
    if !Verifies(q, s.keyper, 0, g, t) {
      var right: Encryption.Bytes :| Read(env, Some(right)) == Some(RightValue(s, d, s.keyper));
      cipher := Some(right);
    }
    var v := Read(env, cipher);
    assert Completed(s.pub.commitments, gs) == s.pub.commitments && r.pub.commitments == s.pub.commitments;
    var answers := OthersAnswers(q, s.pub.commitments, s.keyper, d);
    AnswersPublishable(env, s, c, l, gs, d, answers);
    PlayedSettled(env, s, c, l, gs, d, v, answers);
    var x, y := Played(s, gs, d, v, answers), Played(r, gs, d, v, answers);
    assert OthersSettled(y, d);
    RightValueVerifies(s, d, s.keyper);
    SettledSucceeds(x, d);
    SettledSucceeds(y, d);
    PlayedTwice(env, s, c, l, gs, d, cipher, answers, DealingChain(env, s, gs, d, cipher, answers, c));
  }

  // ----- exactly when

  /** There is a chain on which the keyper, without a restart, succeeds. */
  ghost predicate CanSucceed(env: Env, s: State, c: int)
    requires s.Valid() && s.pub.numKeypers == |env.keypers|
  {
    exists eon: DKGEon, c' :: SucceedsOn(env, s, eon, c, c')
  }

  lemma {:induction false} ParticipantsAtMost(b: Broadcast, n: nat)
    requires b.Valid() && n <= b.numKeypers
    ensures Participants(b, n) <= n
  {
    if n > 0 {
      ParticipantsAtMost(b, n - 1);
    }
  }

  lemma ThresholdFits(env: Env, s: State, c: int, eon: DKGEon, c': int)
    requires Saved(env, s, c) && SucceedsOn(env, s, eon, c, c')
    ensures s.pub.threshold <= s.pub.numKeypers
  {
    var u := SyncDKG(env, s, eon, c + 1, c');
    SyncByParts(env, s, eon, c + 1, c');
    ParticipantsAtMost(u.pub, u.pub.numKeypers);
  }

  lemma NotMildDealing(env: Env, s: State, c: int, l: int)
    requires DealingSaved(env, s, c, l) && CanReceive(env, s.pub.q) && !Mild(s)
    ensures !Harmless(env, s, c)
  {
    if d: nat :| d < s.pub.numKeypers && s.pub.commitments[d].None? {
      MissingCommitmentHarms(env, s, c, l, d);
    } else {
      var d :| 0 <= d < |s.evals| && !(s.pub.commitments[d].Some? && s.evals[d].Some?);
      MissingValueHarms(env, s, c, l, d);
    }
  }

  lemma NotMildLate(env: Env, s: State, c: int, l: int, eon: DKGEon, c': int)
    requires Saved(env, s, c) && env.plen == ConstantPhaseLength(l) && l >= 1 && Rank(s.phase) > Rank(Dealing)
    requires !Mild(s) && SucceedsOn(env, s, eon, c, c')
    ensures !Harmless(env, s, c)
  {
    if !AllInvolved(s) {
      var d :| 0 <= d < s.pub.numKeypers && s.pub.commitments[d].None? && !Involved(s.pub, d);
      UninvolvedHarms(env, s, c, l, d, eon, c');
    } else {
      var d :| 0 <= d < s.pub.numKeypers && !MildFor(s, d);
      DeceptionHarms(env, s, c, l, d, eon, c');
    }
  }

  /** A restart is harmless on all chains if and only if nothing that is missing can
      still matter: while dealing, every commitment and value has arrived; later, every
      dealer without a commitment has been accused or has apologized, and a missing value
      is owed to the keyper in public, or could not be mistaken for 0. The question only
      arises for a keyper that can still succeed and can be sent values. */
  lemma RestartHarmlessExactly(env: Env, s: State, c: int, l: int)
    requires Saved(env, s, c) && env.plen == ConstantPhaseLength(l) && l >= 1
    requires CanReceive(env, s.pub.q) && CanSucceed(env, s, c)
    ensures Harmless(env, s, c) <==> Mild(s)
  {
    if Mild(s) {
      MildIsHarmless(env, s, c);
    } else {
      var eon: DKGEon, c' :| SucceedsOn(env, s, eon, c, c');
      if s.phase == Dealing {
        ThresholdFits(env, s, c, eon, c');
        NotMildDealing(env, s, c, l);
      } else {
        NotMildLate(env, s, c, l, eon, c');
      }
    }
  }

  // ----- the object itself

  function Quiet(env: Env): DKGEon {
    Eon(0, env.start, 0, [], [], [], [])
  }

  /** On a chain with no more messages only the phase changes. */
  lemma QuietStep(env: Env, s: State, c: int, c': int)
    requires s.Valid() && s.pub.numKeypers == |env.keypers| && c <= c'
    requires s.phase == env.PhaseOf(c + 1) && s.phase != Off
    ensures SyncDKG(env, s, Quiet(env), c + 1, c') == s.(phase := env.PhaseOf(c' + 1))
  {
    SyncByParts(env, s, Quiet(env), c + 1, c');
  }

  ghost predicate SameObjectOn(env: Env, s: State, eon: DKGEon, c: int, c': int)
    requires s.Valid() && s.pub.numKeypers == |env.keypers|
  {
    SyncDKG(env, Reloaded(s), eon, c + 1, c') == SyncDKG(env, s, eon, c + 1, c')
  }

  /** The DKG object itself comes back unchanged, and so ends the same on every chain, if
      and only if nothing is missing. */
  lemma ObjectRestoredExactly(env: Env, s: State, c: int, l: int)
    requires Saved(env, s, c) && env.plen == ConstantPhaseLength(l) && l >= 1
    ensures (forall eon: DKGEon, c' :: eon.SortedLists() && c <= c' && env.PhaseOf(c' + 1) == Finalized ==>
               SameObjectOn(env, s, eon, c, c'))
      <==> AllPresent(s)
  {
    var t := Reloaded(s);
    if AllPresent(s) {
      assert t.evals == s.evals && t.pub.commitments == s.pub.commitments;
    } else {
      var c' := EndBlock(env, c);
      BlocksInPhase(env, c, l);
      QuietStep(env, s, c, c');
      QuietStep(env, t, c, c');
      var d :| 0 <= d < |s.evals| && !(s.pub.commitments[d].Some? && s.evals[d].Some?);
      assert t.pub.commitments[d] != s.pub.commitments[d] || t.evals[d] != s.evals[d];
      assert !SameObjectOn(env, s, Quiet(env), c, c');
    }
  }
}
