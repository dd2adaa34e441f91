/** A step of the DKG, list by list, and two steps in a row: where the chain is cut
    into steps makes no difference, and what comes out can be read off the chain. */
module Chunking {
  import opened Addresses
  import opened Outcome
  import opened Feldman
  import opened Groups
  import opened Observe
  import opened DistributedKeyGeneration
  import opened KeyperSync

  // ----- a step, list by list

  function AsOff(s: State): (s': State)
    requires s.Valid()
    ensures s'.Valid()
  {
    s.(phase := Off)
  }

  /** The result of a step, with each list fed separately to the same state. */
  function Parts(env: Env, s: State, eon: DKGEon, h: int, c: int): (s': State)
    requires s.Valid() && s.pub.numKeypers == |env.keypers|
    ensures s'.Valid() && SameKeyper(s, s')
    ensures s'.phase == env.PhaseOf(c + 1)
  {
    var ph := env.PhaseOf(c + 1);
    var b := AsOff(Begun(env, s, ph));
    b.(phase := ph,
       evals := PolyEvals(env, b, Window(eon.polyEvals, h, c)).evals,
       pub := b.pub.(commitments := Commitments(env, b, Window(eon.commitments, h, c)).pub.commitments,
                     accusations := Accusations(env, b, Window(eon.accusations, h, c)).pub.accusations,
                     apologies := Apologies(env, b, Window(eon.apologies, h, c)).pub.apologies))
  }

  lemma WithoutBelow<T>(env: Env, evs: seq<At<T>>, h: int, c: int, wanted: Phase)
    requires Between(evs, h, c)
    requires Rank(env.PhaseOf(c)) < Rank(wanted) || Rank(env.PhaseOf(h)) > Rank(wanted)
    ensures Without(env, evs, wanted)
  {
    forall i | 0 <= i < |evs|
      ensures env.PhaseOf(evs[i].height) != wanted
    {
      PhaseMonotone(env.plen, evs[i].height, c, env.start);
      PhaseMonotone(env.plen, h, evs[i].height, env.start);
    }
  }

  /** No event whose height lies in its phase is rejected for phase: if the DKG has
      left the phase, the unread events are all of later heights. */
  lemma InPhaseAccepted<T>(env: Env, phase: Phase, events: seq<At<T>>, h: int, c: int, wanted: Phase)
    requires Rank(phase) <= Rank(wanted) || Rank(phase) <= Rank(env.PhaseOf(h))
    ensures Open(env, phase, Window(events, h, c), wanted)
  {
    WindowHeights(events, h, c);
    if Rank(phase) > Rank(wanted) {
      WithoutBelow(env, Window(events, h, c), h, c, wanted);
    }
  }

  lemma SkipAll(env: Env, s: State, eon: DKGEon, h: int, c: int)
    requires s.Valid() && s.pub.numKeypers == |env.keypers|
    requires env.PhaseOf(c) == Off || env.PhaseOf(h) == Finalized
    ensures Commitments(env, s, Window(eon.commitments, h, c)) == s
    ensures PolyEvals(env, s, Window(eon.polyEvals, h, c)) == s
    ensures Accusations(env, s, Window(eon.accusations, h, c)) == s
    ensures Apologies(env, s, Window(eon.apologies, h, c)) == s
  {
    WindowHeights(eon.commitments, h, c);
    WithoutBelow(env, Window(eon.commitments, h, c), h, c, Dealing);
    CommitmentsSkip(env, s, Window(eon.commitments, h, c));
    WindowHeights(eon.polyEvals, h, c);
    WithoutBelow(env, Window(eon.polyEvals, h, c), h, c, Dealing);
    PolyEvalsSkip(env, s, Window(eon.polyEvals, h, c));
    WindowHeights(eon.accusations, h, c);
    WithoutBelow(env, Window(eon.accusations, h, c), h, c, Accusing);
    AccusationsSkip(env, s, Window(eon.accusations, h, c));
    WindowHeights(eon.apologies, h, c);
    WithoutBelow(env, Window(eon.apologies, h, c), h, c, Apologizing);
    ApologiesSkip(env, s, Window(eon.apologies, h, c));
  }

  lemma EarlyParts(env: Env, s: State, eon: DKGEon, h: int, c: int)
    requires s.Valid() && s.pub.numKeypers == |env.keypers|
    requires Rank(s.phase) <= Rank(env.PhaseOf(h)) || s.phase == Dealing
    ensures var b, wc, we := AsOff(s), Window(eon.commitments, h, c), Window(eon.polyEvals, h, c);
      PolyEvals(env, Commitments(env, s, wc), we)
      == WithCommitments(s, Commitments(env, b, wc)).(evals := PolyEvals(env, b, we).evals)
  {
    var b, wc, we := AsOff(s), Window(eon.commitments, h, c), Window(eon.polyEvals, h, c);
    InPhaseAccepted(env, s.phase, eon.commitments, h, c, Dealing);
    CommitmentsFrame(env, s, b, wc);
    InPhaseAccepted(env, s.phase, eon.polyEvals, h, c, Dealing);
    PolyEvalsFrame(env, WithCommitments(s, Commitments(env, b, wc)), b, we);
  }

  /** The phases that a step passes through after dealing. */
  function Reached(phase: Phase, ph: Phase, to: Phase): Phase {
    if phase == Off || Rank(ph) <= Rank(phase) then phase
    else if Rank(ph) <= Rank(to) then ph
    else if Rank(to) <= Rank(phase) then phase
    else to
  }

  lemma LateParts(env: Env, s: State, b: State, eon: DKGEon, h: int, c: int)
    requires Comparable(env, s, b) && b.phase == Off
    requires s.pub.accusations == b.pub.accusations && s.pub.apologies == b.pub.apologies
    requires Rank(s.phase) <= Rank(env.PhaseOf(h)) || s.phase == Dealing
    requires Rank(s.phase) <= Rank(env.PhaseOf(c + 1)) && (s.phase == Off ==> env.PhaseOf(c + 1) == Off)
    requires h <= c + 1
    ensures Late(env, s, eon, h, c)
         == WithApologies(WithAccusations(s, Accusations(env, b, Window(eon.accusations, h, c))),
                          Apologies(env, b, Window(eon.apologies, h, c))).(phase := env.PhaseOf(c + 1))
  {
    PhaseMonotone(env.plen, h, c + 1, env.start);
    var ph := env.PhaseOf(c + 1);
    var wa, wp := Window(eon.accusations, h, c), Window(eon.apologies, h, c);
    var s4 := Advance(s, ph, Dealing, Accusing);
    assert s4 == s.(phase := Reached(s.phase, ph, Accusing));
    InPhaseAccepted(env, s4.phase, eon.accusations, h, c, Accusing);
    AccusationsFrame(env, s4, b, wa);
    var s5 := Accusations(env, s4, wa);
    var s6 := Advance(s5, ph, Accusing, Apologizing);
    assert s6 == WithAccusations(s, Accusations(env, b, wa)).(phase := Reached(s.phase, ph, Apologizing));
    InPhaseAccepted(env, s6.phase, eon.apologies, h, c, Apologizing);
    ApologiesFrame(env, s6, b, wp);
  }

  /** A DKG that is not ahead of its unread events: the step is its parts. */
  lemma SyncByParts(env: Env, s: State, eon: DKGEon, h: int, c: int)
    requires s.Valid() && s.pub.numKeypers == |env.keypers|
    requires h <= c + 1 && Rank(s.phase) <= Rank(env.PhaseOf(h))
    ensures SyncDKG(env, s, eon, h, c) == Parts(env, s, eon, h, c)
  {
    var ph := env.PhaseOf(c + 1);
    PhaseMonotone(env.plen, h, c + 1, env.start);
    var s1 := Begun(env, s, ph);
    var b := AsOff(s1);
    if s.phase == Finalized {
      SkipAll(env, b, eon, h, c);
    } else {
      EarlyParts(env, s1, eon, h, c);
      var s3 := PolyEvals(env, Commitments(env, s1, Window(eon.commitments, h, c)), Window(eon.polyEvals, h, c));
      LateParts(env, s3, b, eon, h, c);
    }
  }

  // ----- two steps make one

  lemma TwoWindows(env: Env, b: State, m: State, eon: DKGEon, h: int, c: int, c': int)
    requires Comparable(env, b, m) && b.phase == Off && m.phase == Off
    requires eon.SortedLists() && h <= c + 1 && c <= c'
    requires m.pub.commitments == Commitments(env, b, Window(eon.commitments, h, c)).pub.commitments
    requires m.evals == PolyEvals(env, b, Window(eon.polyEvals, h, c)).evals
    ensures Commitments(env, b, Window(eon.commitments, h, c')).pub.commitments
         == Commitments(env, m, Window(eon.commitments, c + 1, c')).pub.commitments
    ensures PolyEvals(env, b, Window(eon.polyEvals, h, c')).evals
         == PolyEvals(env, m, Window(eon.polyEvals, c + 1, c')).evals
  {
    var wc, we := Window(eon.commitments, h, c), Window(eon.polyEvals, h, c);
    WindowSplit(eon.commitments, h, c, c');
    CommitmentsConcat(env, b, wc, Window(eon.commitments, c + 1, c'));
    CommitmentsFrame(env, b, b, wc);
    CommitmentsFrame(env, m, Commitments(env, b, wc), Window(eon.commitments, c + 1, c'));
    WindowSplit(eon.polyEvals, h, c, c');
    PolyEvalsConcat(env, b, we, Window(eon.polyEvals, c + 1, c'));
    PolyEvalsFrame(env, b, b, we);
    PolyEvalsFrame(env, m, PolyEvals(env, b, we), Window(eon.polyEvals, c + 1, c'));
  }

  lemma TwoLateWindows(env: Env, b: State, m: State, eon: DKGEon, h: int, c: int, c': int)
    requires Comparable(env, b, m) && b.phase == Off && m.phase == Off
    requires eon.SortedLists() && h <= c + 1 && c <= c'
    requires m.pub.accusations == Accusations(env, b, Window(eon.accusations, h, c)).pub.accusations
    requires m.pub.apologies == Apologies(env, b, Window(eon.apologies, h, c)).pub.apologies
    ensures Accusations(env, b, Window(eon.accusations, h, c')).pub.accusations
         == Accusations(env, m, Window(eon.accusations, c + 1, c')).pub.accusations
    ensures Apologies(env, b, Window(eon.apologies, h, c')).pub.apologies
         == Apologies(env, m, Window(eon.apologies, c + 1, c')).pub.apologies
  {
    var wa, wp := Window(eon.accusations, h, c), Window(eon.apologies, h, c);
    WindowSplit(eon.accusations, h, c, c');
    AccusationsConcat(env, b, wa, Window(eon.accusations, c + 1, c'));
    AccusationsFrame(env, b, b, wa);
    AccusationsFrame(env, m, Accusations(env, b, wa), Window(eon.accusations, c + 1, c'));
    WindowSplit(eon.apologies, h, c, c');
    ApologiesConcat(env, b, wp, Window(eon.apologies, c + 1, c'));
    ApologiesFrame(env, b, b, wp);
    ApologiesFrame(env, m, Apologies(env, b, wp), Window(eon.apologies, c + 1, c'));
  }

  lemma PartsCompose(env: Env, s: State, eon: DKGEon, h: int, c: int, c': int)
    requires s.Valid() && s.pub.numKeypers == |env.keypers| && eon.SortedLists()
    requires h <= c + 1 && c <= c' && Rank(s.phase) <= Rank(env.PhaseOf(h))
    ensures Parts(env, Parts(env, s, eon, h, c), eon, c + 1, c') == Parts(env, s, eon, h, c')
  {
    PhaseMonotone(env.plen, h, c + 1, env.start);
    PhaseMonotone(env.plen, c, c + 1, env.start);
    PhaseMonotone(env.plen, c + 1, c' + 1, env.start);
    var m := Parts(env, s, eon, h, c);
    var b := AsOff(Begun(env, s, env.PhaseOf(c' + 1)));
    var d := AsOff(Begun(env, m, env.PhaseOf(c' + 1)));
    if env.PhaseOf(c + 1) == Off {
      SkipAll(env, s, eon, h, c);
      SkipAll(env, b, eon, h, c);
    }
    TwoWindows(env, b, d, eon, h, c, c');
    TwoLateWindows(env, b, d, eon, h, c, c');
  }

  /** A step taken from the result of a step. */
  lemma SecondStep(env: Env, s: State, eon: DKGEon, h: int, c: int, c': int)
    requires s.Valid() && s.pub.numKeypers == |env.keypers| && eon.SortedLists()
    requires h <= c + 1 && c <= c' && Rank(s.phase) <= Rank(env.PhaseOf(h))
    ensures SyncDKG(env, Parts(env, s, eon, h, c), eon, c + 1, c') == Parts(env, s, eon, h, c')
  {
    SyncByParts(env, Parts(env, s, eon, h, c), eon, c + 1, c');
    PartsCompose(env, s, eon, h, c, c');
  }

  /** Cutting a stretch of the chain in two makes no difference. */
  lemma StepsCompose(env: Env, s: State, m: State, eon: DKGEon, h: int, c: int, c': int)
    requires s.Valid() && s.pub.numKeypers == |env.keypers| && eon.SortedLists()
    requires h <= c + 1 && c <= c' && Rank(s.phase) <= Rank(env.PhaseOf(h))
    requires m == SyncDKG(env, s, eon, h, c)
    ensures m.Valid() && SameKeyper(s, m) && m.phase == env.PhaseOf(c + 1)
    ensures SyncDKG(env, m, eon, c + 1, c') == SyncDKG(env, s, eon, h, c')
  {
    SyncByParts(env, s, eon, h, c);
    SyncByParts(env, s, eon, h, c');
    SecondStep(env, s, eon, h, c, c');
  }

  // ----- from the eon's start

  /** A DKG as created, and an eon on the chain. The phases begin with the eon, as the
      phase lengths of the source have it. */
  ghost predicate ValidSetting(env: Env, initial: State, eon: DKGEon) {
    && initial.Valid() && initial.phase == Off && initial.pub.numKeypers == |env.keypers|
    && eon.SortedLists() && env.start >= 0 && env.plen.off == 0
  }

  lemma EarlyCommitments(env: Env, b: State, events: seq<At<CommitmentMsg>>, h: int, c: int)
    requires b.Valid() && b.pub.numKeypers == |env.keypers| && Sorted(events)
    requires h <= env.start <= c + 1 && env.plen.off >= 0
    ensures Commitments(env, b, Window(events, h, c)) == Commitments(env, b, Window(events, env.start, c))
  {
    var w := Window(events, h, env.start - 1);
    WindowSplit(events, h, env.start - 1, c);
    CommitmentsConcat(env, b, w, Window(events, env.start, c));
    WindowHeights(events, h, env.start - 1);
    WithoutBelow(env, w, h, env.start - 1, Dealing);
    CommitmentsSkip(env, b, w);
  }

  lemma EarlyPolyEvals(env: Env, b: State, events: seq<At<EvalMsg>>, h: int, c: int)
    requires b.Valid() && b.pub.numKeypers == |env.keypers| && Sorted(events)
    requires h <= env.start <= c + 1 && env.plen.off >= 0
    ensures PolyEvals(env, b, Window(events, h, c)) == PolyEvals(env, b, Window(events, env.start, c))
  {
    var w := Window(events, h, env.start - 1);
    WindowSplit(events, h, env.start - 1, c);
    PolyEvalsConcat(env, b, w, Window(events, env.start, c));
    WindowHeights(events, h, env.start - 1);
    WithoutBelow(env, w, h, env.start - 1, Dealing);
    PolyEvalsSkip(env, b, w);
  }

  lemma EarlyAccusations(env: Env, b: State, events: seq<At<AccusationMsg>>, h: int, c: int)
    requires b.Valid() && b.pub.numKeypers == |env.keypers| && Sorted(events)
    requires h <= env.start <= c + 1 && env.plen.off >= 0
    ensures Accusations(env, b, Window(events, h, c)) == Accusations(env, b, Window(events, env.start, c))
  {
    var w := Window(events, h, env.start - 1);
    WindowSplit(events, h, env.start - 1, c);
    AccusationsConcat(env, b, w, Window(events, env.start, c));
    WindowHeights(events, h, env.start - 1);
    WithoutBelow(env, w, h, env.start - 1, Accusing);
    AccusationsSkip(env, b, w);
  }

  lemma EarlyApologies(env: Env, b: State, events: seq<At<ApologyEvent>>, h: int, c: int)
    requires b.Valid() && b.pub.numKeypers == |env.keypers| && Sorted(events)
    requires h <= env.start <= c + 1 && env.plen.off >= 0
    ensures Apologies(env, b, Window(events, h, c)) == Apologies(env, b, Window(events, env.start, c))
  {
    var w := Window(events, h, env.start - 1);
    WindowSplit(events, h, env.start - 1, c);
    ApologiesConcat(env, b, w, Window(events, env.start, c));
    WindowHeights(events, h, env.start - 1);
    WithoutBelow(env, w, h, env.start - 1, Apologizing);
    ApologiesSkip(env, b, w);
  }

  /** Before the eon starts there is nothing to feed. */
  lemma EarlyStart(env: Env, initial: State, eon: DKGEon, h: int, c: int)
    requires ValidSetting(env, initial, eon) && h <= env.start <= c
    ensures SyncDKG(env, initial, eon, h, c) == SyncDKG(env, initial, eon, env.start, c)
  {
    SyncByParts(env, initial, eon, h, c);
    SyncByParts(env, initial, eon, env.start, c);
    var b := AsOff(Begun(env, initial, env.PhaseOf(c + 1)));
    EarlyCommitments(env, b, eon.commitments, h, c);
    EarlyPolyEvals(env, b, eon.polyEvals, h, c);
    EarlyAccusations(env, b, eon.accusations, h, c);
    EarlyApologies(env, b, eon.apologies, h, c);
  }

  // ----- read off the chain

  lemma {:induction false} SameFirst(env: Env, s: State, t: State, evs: seq<At<CommitmentMsg>>, dealer: nat)
    requires SameKeyper(s, t)
    ensures FirstCommitment(env, s, evs, dealer) == FirstCommitment(env, t, evs, dealer)
    decreases |evs|
  {
    if evs != [] {
      SameFirst(env, s, t, evs[1..], dealer);
    }
  }

  lemma {:induction false} SameValues(env: Env, s: State, t: State, evs: seq<At<EvalMsg>>, dealer: nat)
    requires SameKeyper(s, t)
    ensures ValuesFrom(env, s, evs, dealer) == ValuesFrom(env, t, evs, dealer)
    decreases |evs|
  {
    if evs != [] {
      SameValues(env, s, t, evs[..|evs| - 1], dealer);
    }
  }

  /** The values a keyper ends up with, read off the chain: from each other dealer the
      first one in range that it sent while dealing, and for each accusation the first
      one in range that was given in answer. */
  lemma ValuesReadOffChain(env: Env, initial: State, eon: DKGEon, c: int, dealer: nat, key: AccusationKey)
    requires ValidSetting(env, initial, eon) && env.start <= c && dealer < |env.keypers| && dealer != initial.keyper
    requires initial.evals[dealer].None? && initial.pub.apologies == map[]
    ensures var d, q := SyncDKG(env, initial, eon, env.start, c), initial.pub.q;
      && d.evals[dealer] == FirstValid(q, ValuesFrom(env, initial, Window(eon.polyEvals, env.start, c), dealer))
      && Entry(d.pub.apologies, key) == FirstValid(q, AnswersTo(env, Window(eon.apologies, env.start, c), key))
  {
    SyncByParts(env, initial, eon, env.start, c);
    var b := AsOff(Begun(env, initial, env.PhaseOf(c + 1)));
    PolyEvalsExact(env, b, Window(eon.polyEvals, env.start, c), dealer);
    SameValues(env, b, initial, Window(eon.polyEvals, env.start, c), dealer);
    ApologiesExact(env, b, Window(eon.apologies, env.start, c), key);
  }

  /** The view a keyper ends up with, read off the chain: each dealer's first
      commitment that counts, and the accusations made in their phase. */
  lemma ViewReadOffChain(env: Env, initial: State, eon: DKGEon, c: int, dealer: nat, key: AccusationKey)
    requires ValidSetting(env, initial, eon) && env.start <= c && dealer < |env.keypers|
    requires initial.pub.commitments[dealer].None? && initial.pub.accusations == {}
    ensures SyncDKG(env, initial, eon, env.start, c).pub.commitments[dealer]
         == FirstCommitment(env, initial, Window(eon.commitments, env.start, c), dealer)
    ensures key in SyncDKG(env, initial, eon, env.start, c).pub.accusations
      <==> Accused(env, Window(eon.accusations, env.start, c), key)
  {
    SyncByParts(env, initial, eon, env.start, c);
    var b := AsOff(Begun(env, initial, env.PhaseOf(c + 1)));
    var wc, wa := Window(eon.commitments, env.start, c), Window(eon.accusations, env.start, c);
    CommitmentsExact(env, b, wc, dealer);
    SameFirst(env, b, initial, wc, dealer);
    AccusationsExact(env, b, wa, key);
  }

  lemma {:induction false} NoValuesFromSelf(env: Env, s: State, evs: seq<At<EvalMsg>>)
    ensures ValuesFrom(env, s, evs, s.keyper) == []
    decreases |evs|
  {
    if evs != [] {
      NoValuesFromSelf(env, s, evs[..|evs| - 1]);
    }
  }

  /** A keyper's own value is that of its polynomial. */
  lemma OwnValue(env: Env, initial: State, eon: DKGEon, c: int, t: State)
    requires ValidSetting(env, initial, eon) && env.start <= c && t == SyncDKG(env, initial, eon, env.start, c)
    ensures |t.evals| == |env.keypers|
    ensures t.evals[initial.keyper] == Some(PolyValue(env.polynomial, KeyperX(initial.keyper)) % initial.pub.q)
  {
    var w := Window(eon.polyEvals, env.start, c);
    SyncByParts(env, initial, eon, env.start, c);
    PhaseMonotone(env.plen, env.start, c + 1, env.start);
    var b := AsOff(Begun(env, initial, env.PhaseOf(c + 1)));
    PolyEvalsExact(env, b, w, initial.keyper);
    NoValuesFromSelf(env, b, w);
  }
}
