/** The DKG under the keyper's main loop: its outcome depends on the chain alone, not on
    where the steps cut the chain, on steps that are repeated or skipped, nor on crashes
    whose restart is harmless. */
module DkgRuns {
  import opened Addresses
  import opened Outcome
  import opened Feldman
  import opened Observe
  import opened DistributedKeyGeneration
  import opened KeyperSync
  import opened KeyperRuns
  import opened Chunking
  import opened Restarts

  /** A DKG under way, or one that has finished. The result is computed in the step that
      finishes it and kept apart; the object is not looked at any more. */
  datatype Progress = Running(dkg: State) | Done(final: State)

  function Concluded(s: State): Progress {
    if s.phase == Finalized then Done(s) else Running(s)
  }

  ghost predicate Fed(env: Env, s: State) {
    s.Valid() && s.pub.numKeypers == |env.keypers|
  }

  ghost function StepProgress(env: Env, eon: DKGEon, d: Progress, h: int, c: int): Progress {
    if d.Running? && Fed(env, d.dkg) then Concluded(SyncDKG(env, d.dkg, eon, h, c)) else d
  }

  /** A result has no missing parts, so it comes back from disk as it was. */
  ghost function ReloadProgress(d: Progress): Progress {
    if d.Running? && d.dkg.Valid() then Running(Reloaded(d.dkg)) else d
  }

  ghost function DkgMachine(env: Env, initial: State, eon: DKGEon): Machine<Progress> {
    Machine(env.start, Running(initial),
            (d: Progress, h: int, c: int) => StepProgress(env, eon, d, h, c),
            (d: Progress) => ReloadProgress(d))
  }

  // ----- restarts that leave the object as it was, and restarts that leave the outcome

  /** Loading brings the DKG back as it was. */
  ghost function Unchanged(): Progress -> bool {
    (d: Progress) => d.Running? ==> d.dkg.Valid() && AllPresent(d.dkg)
  }

  ghost function Same(): (Progress, Progress) -> bool {
    (d: Progress, e: Progress) => d == e
  }

  /** Loading does no harm to the DKG's outcome. */
  ghost function MildDkg(): Progress -> bool {
    (d: Progress) => d.Running? ==> d.dkg.Valid() && Mild(d.dkg)
  }

  ghost predicate AlikeProgress(d: Progress, e: Progress) {
    match (d, e)
    case (Running(s), Running(t)) => Alike(s, t)
    case (Done(s), Done(t)) => SameOutcome(s, t) && SameVerdicts(s, t)
    case _ => false
  }

  ghost function AlikeDkg(): (Progress, Progress) -> bool {
    (d: Progress, e: Progress) => AlikeProgress(d, e)
  }

  // ----- the machine is lawful

  lemma IdealFacts(env: Env, initial: State, eon: DKGEon, c: int, t: State)
    requires ValidSetting(env, initial, eon) && env.start <= c && t == SyncDKG(env, initial, eon, env.start, c)
    ensures Fed(env, t) && SameKeyper(initial, t) && t.phase == env.PhaseOf(c + 1)
  {
    SyncByParts(env, initial, eon, env.start, c);
  }

  /** The ideal DKG goes from block to block by steps. */
  lemma IdealSteps(env: Env, initial: State, eon: DKGEon, c: int, c': int, t: State)
    requires ValidSetting(env, initial, eon) && env.start <= c <= c' && t == SyncDKG(env, initial, eon, env.start, c)
    ensures SyncDKG(env, t, eon, c + 1, c') == SyncDKG(env, initial, eon, env.start, c')
  {
    StepsCompose(env, initial, t, eon, env.start, c, c');
  }

  lemma FinishedStays(env: Env, initial: State, eon: DKGEon, c: int, c': int, t: State)
    requires ValidSetting(env, initial, eon) && env.start <= c <= c' && t == SyncDKG(env, initial, eon, env.start, c)
    requires t.phase == Finalized
    ensures SyncDKG(env, initial, eon, env.start, c') == t
  {
    IdealFacts(env, initial, eon, c, t);
    IdealSteps(env, initial, eon, c, c', t);
  }

  lemma RunningStepsAlike(env: Env, s: State, t: State, eon: DKGEon, c: int, c': int)
    requires Alike(s, t) && Fed(env, s) && s.pub.threshold >= 1 && c <= c' && s.phase == env.PhaseOf(c + 1)
    ensures AlikeProgress(Concluded(SyncDKG(env, s, eon, c + 1, c')), Concluded(SyncDKG(env, t, eon, c + 1, c')))
  {
    StepKeepsAlike(env, s, t, eon, c, c');
    var s', t' := SyncDKG(env, s, eon, c + 1, c'), SyncDKG(env, t, eon, c + 1, c');
    if s'.phase == Finalized {
      AlikeOutcome(s', t');
    }
  }

  /** A DKG like the ideal one takes a step: it stays like it. */
  lemma StepAlike(env: Env, initial: State, eon: DKGEon, d: Progress, t: State, c: int, c': int)
    requires ValidSetting(env, initial, eon) && initial.pub.threshold >= 1 && env.start <= c <= c'
    requires t == SyncDKG(env, initial, eon, env.start, c) && AlikeProgress(d, Concluded(t))
    ensures AlikeProgress(StepProgress(env, eon, d, c + 1, c'), Concluded(SyncDKG(env, initial, eon, env.start, c')))
  {
    IdealFacts(env, initial, eon, c, t);
    if d.Running? {
      IdealSteps(env, initial, eon, c, c', t);
      RunningStepsAlike(env, d.dkg, t, eon, c, c');
    } else {
      FinishedStays(env, initial, eon, c, c', t);
    }
  }

  lemma StepSame(env: Env, initial: State, eon: DKGEon, t: State, c: int, c': int)
    requires ValidSetting(env, initial, eon) && env.start <= c <= c'
    requires t == SyncDKG(env, initial, eon, env.start, c)
    ensures StepProgress(env, eon, Concluded(t), c + 1, c') == Concluded(SyncDKG(env, initial, eon, env.start, c'))
  {
    IdealFacts(env, initial, eon, c, t);
    if t.phase == Finalized {
      FinishedStays(env, initial, eon, c, c', t);
    } else {
      IdealSteps(env, initial, eon, c, c', t);
    }
  }

  lemma ReloadSame(d: Progress)
    requires Unchanged()(d)
    ensures ReloadProgress(d) == d
  {
    if d.Running? {
      var t := Reloaded(d.dkg);
      assert t.evals == d.dkg.evals && t.pub.commitments == d.dkg.pub.commitments;
    }
  }

  lemma ReloadAlikeProgress(d: Progress, e: Progress)
    requires AlikeProgress(d, e) && MildDkg()(d)
    ensures AlikeProgress(ReloadProgress(d), e)
  {
    if d.Running? {
      ReloadAlike(d.dkg, e.dkg);
    }
  }

  lemma StepEarly(env: Env, initial: State, eon: DKGEon, h: int, c: int)
    requires ValidSetting(env, initial, eon) && h <= env.start <= c
    ensures StepProgress(env, eon, Running(initial), h, c) == Concluded(SyncDKG(env, initial, eon, env.start, c))
  {
    EarlyStart(env, initial, eon, h, c);
  }

  ghost function Stepped(m: Machine<Progress>, d: Progress, h: int, c: int): Progress {
    m.step(d, h, c)
  }

  /** What the machine is, without its functions. */
  ghost predicate Drives(m: Machine<Progress>, env: Env, initial: State, eon: DKGEon) {
    && m.start == env.start && m.initial == Running(initial)
    && (forall d, h, c :: Stepped(m, d, h, c) == StepProgress(env, eon, d, h, c))
    && (forall d :: m.reload(d) == ReloadProgress(d))
  }

  lemma MachineDrives(env: Env, initial: State, eon: DKGEon)
    ensures Drives(DkgMachine(env, initial, eon), env, initial, eon)
  {
  }

  lemma StepOf(m: Machine<Progress>, env: Env, initial: State, eon: DKGEon, d: Progress, h: int, c: int)
    requires Drives(m, env, initial, eon)
    ensures m.step(d, h, c) == StepProgress(env, eon, d, h, c)
  {
    assert Stepped(m, d, h, c) == StepProgress(env, eon, d, h, c);
  }

  lemma StartsLateSame(m: Machine<Progress>, env: Env, initial: State, eon: DKGEon)
    requires Drives(m, env, initial, eon) && ValidSetting(env, initial, eon)
    ensures StartsLate(m, Same())
  {
    forall h, c | h <= m.start <= c
      ensures m.step(m.initial, h, c) == Ideal(m, c)
    {
      StepOf(m, env, initial, eon, m.initial, h, c);
      StepEarly(env, initial, eon, h, c);
      IdealOf(m, env, initial, eon, c);
    }
  }

  lemma IdealOf(m: Machine<Progress>, env: Env, initial: State, eon: DKGEon, c: int)
    requires Drives(m, env, initial, eon) && ValidSetting(env, initial, eon)
    ensures Ideal(m, c) == Concluded(SyncDKG(env, initial, eon, env.start, c))
  {
    StepOf(m, env, initial, eon, m.initial, m.start, c);
  }

  lemma StepsSame(m: Machine<Progress>, env: Env, initial: State, eon: DKGEon)
    requires Drives(m, env, initial, eon) && ValidSetting(env, initial, eon)
    ensures StepsAlike(m, Same())
  {
    forall c, c' | m.start <= c <= c'
      ensures m.step(Ideal(m, c), c + 1, c') == Ideal(m, c')
    {
      IdealOf(m, env, initial, eon, c);
      IdealOf(m, env, initial, eon, c');
      StepOf(m, env, initial, eon, Ideal(m, c), c + 1, c');
      StepSame(env, initial, eon, SyncDKG(env, initial, eon, env.start, c), c, c');
    }
  }

  lemma LoadsSame(m: Machine<Progress>, env: Env, initial: State, eon: DKGEon)
    requires Drives(m, env, initial, eon)
    ensures LoadsAlike(m, Same(), Unchanged())
  {
    forall d | Unchanged()(d)
      ensures m.reload(d) == d
    {
      ReloadSame(d);
    }
  }

  lemma StepsAlikeTo(m: Machine<Progress>, env: Env, initial: State, eon: DKGEon, d: Progress, c: int, c': int)
    requires Drives(m, env, initial, eon) && ValidSetting(env, initial, eon) && initial.pub.threshold >= 1
    requires env.start <= c <= c' && AlikeProgress(d, Ideal(m, c))
    ensures AlikeProgress(m.step(d, c + 1, c'), Ideal(m, c'))
  {
    IdealOf(m, env, initial, eon, c);
    IdealOf(m, env, initial, eon, c');
    StepOf(m, env, initial, eon, d, c + 1, c');
    StepAlike(env, initial, eon, d, SyncDKG(env, initial, eon, env.start, c), c, c');
  }

  lemma LawfulSame(env: Env, initial: State, eon: DKGEon)
    requires ValidSetting(env, initial, eon)
    ensures Lawful(DkgMachine(env, initial, eon), Same(), Unchanged())
  {
    var m := DkgMachine(env, initial, eon);
    MachineDrives(env, initial, eon);
    StartsLateSame(m, env, initial, eon);
    StepsSame(m, env, initial, eon);
    LoadsSame(m, env, initial, eon);
  }

  lemma AlikeProgressReflexive(s: State)
    requires s.Valid()
    ensures AlikeProgress(Concluded(s), Concluded(s))
  {
    AlikeReflexive(s);
  }

  lemma StartsLateAlike(m: Machine<Progress>, env: Env, initial: State, eon: DKGEon)
    requires Drives(m, env, initial, eon) && ValidSetting(env, initial, eon)
    ensures StartsLate(m, AlikeDkg())
  {
    StartsLateSame(m, env, initial, eon);
    forall h, c | h <= m.start <= c
      ensures AlikeDkg()(m.step(m.initial, h, c), Ideal(m, c))
    {
      IdealOf(m, env, initial, eon, c);
      AlikeProgressReflexive(SyncDKG(env, initial, eon, env.start, c));
    }
  }

  lemma StepsAlikeDkg(m: Machine<Progress>, env: Env, initial: State, eon: DKGEon)
    requires Drives(m, env, initial, eon) && ValidSetting(env, initial, eon) && initial.pub.threshold >= 1
    ensures StepsAlike(m, AlikeDkg())
  {
    forall d, c, k, c' | m.start <= c <= c' && k == c + 1 && AlikeDkg()(d, Ideal(m, c))
      ensures AlikeDkg()(m.step(d, k, c'), Ideal(m, c'))
    {
      StepsAlikeTo(m, env, initial, eon, d, c, c');
    }
  }

  lemma LoadsAlikeDkg(m: Machine<Progress>, env: Env, initial: State, eon: DKGEon)
    requires Drives(m, env, initial, eon)
    ensures LoadsAlike(m, AlikeDkg(), MildDkg())
  {
    forall d, c | m.start <= c && AlikeDkg()(d, Ideal(m, c)) && MildDkg()(d)
      ensures AlikeDkg()(m.reload(d), Ideal(m, c))
    {
      ReloadAlikeProgress(d, Ideal(m, c));
    }
  }

  lemma LawfulAlike(env: Env, initial: State, eon: DKGEon)
    requires ValidSetting(env, initial, eon) && initial.pub.threshold >= 1
    ensures Lawful(DkgMachine(env, initial, eon), AlikeDkg(), MildDkg())
  {
    var m := DkgMachine(env, initial, eon);
    MachineDrives(env, initial, eon);
    StartsLateAlike(m, env, initial, eon);
    StepsAlikeDkg(m, env, initial, eon);
    LoadsAlikeDkg(m, env, initial, eon);
  }

  // ----- runs

  /** The DKG in memory after a run. */
  ghost function MemoryAfter(env: Env, initial: State, eon: DKGEon, ops: seq<Op>): Keyper<Progress> {
    Run(DkgMachine(env, initial, eon), Start(), ops).memory
  }

  /** A run in which loading always brings the DKG back as it was. */
  ghost predicate Faithful(env: Env, initial: State, eon: DKGEon, ops: seq<Op>) {
    OrderlyRun(DkgMachine(env, initial, eon), Unchanged(), Start(), ops)
  }

  /** A run in which loading never does harm to the outcome. */
  ghost predicate Benign(env: Env, initial: State, eon: DKGEon, ops: seq<Op>) {
    OrderlyRun(DkgMachine(env, initial, eon), MildDkg(), Start(), ops)
  }

  /** After a faithful run the DKG is what a single step over the whole chain, from the
      start of the eon, would have made of it. */
  lemma RunIsOneStep(env: Env, initial: State, eon: DKGEon, ops: seq<Op>, last: int)
    requires ValidSetting(env, initial, eon) && Faithful(env, initial, eon, ops)
    requires MemoryAfter(env, initial, eon, ops).syncHeight == last + 1
    ensures MemoryAfter(env, initial, eon, ops).dkg ==
      if last < env.start then None else Some(Concluded(SyncDKG(env, initial, eon, env.start, last)))
  {
    LawfulSame(env, initial, eon);
    RunIsLikeOneStep(DkgMachine(env, initial, eon), Same(), Unchanged(), ops, last);
    MachineDrives(env, initial, eon);
    IdealOf(DkgMachine(env, initial, eon), env, initial, eon, last);
  }

  /** Chunking independence: two runs over the same events, however they cut the chain,
      repeat or skip steps and crash, have the same DKG once they have decided on the
      same last block, if each restart found all commitments and values present. */
  lemma ChunkingIndependence(env: Env, initial: State, eon: DKGEon, ops1: seq<Op>, ops2: seq<Op>)
    requires ValidSetting(env, initial, eon)
    requires Faithful(env, initial, eon, ops1) && Faithful(env, initial, eon, ops2)
    requires MemoryAfter(env, initial, eon, ops1).syncHeight == MemoryAfter(env, initial, eon, ops2).syncHeight
    ensures MemoryAfter(env, initial, eon, ops1).dkg == MemoryAfter(env, initial, eon, ops2).dkg
  {
    var last := MemoryAfter(env, initial, eon, ops1).syncHeight - 1;
    RunIsOneStep(env, initial, eon, ops1, last);
    RunIsOneStep(env, initial, eon, ops2, last);
  }

  /** After a benign run a finished DKG has the outcome that a single step over the whole
      chain would have given it. */
  lemma BenignOutcome(env: Env, initial: State, eon: DKGEon, ops: seq<Op>, s: State) returns (last: int)
    requires ValidSetting(env, initial, eon) && initial.pub.threshold >= 1 && Benign(env, initial, eon, ops)
    requires MemoryAfter(env, initial, eon, ops).dkg == Some(Done(s))
    ensures env.start <= last && env.PhaseOf(last + 1) == Finalized
    ensures SameOutcome(s, SyncDKG(env, initial, eon, env.start, last))
    ensures SameVerdicts(s, SyncDKG(env, initial, eon, env.start, last))
  {
    last := MemoryAfter(env, initial, eon, ops).syncHeight - 1;
    LawfulAlike(env, initial, eon);
    RunIsLikeOneStep(DkgMachine(env, initial, eon), AlikeDkg(), MildDkg(), ops, last);
    MachineDrives(env, initial, eon);
    IdealOf(DkgMachine(env, initial, eon), env, initial, eon, last);
    IdealFacts(env, initial, eon, last, SyncDKG(env, initial, eon, env.start, last));
  }

  lemma FirstDecision(m: Machine<Progress>, env: Env, initial: State, eon: DKGEon, c: int, s: State)
    requires Drives(m, env, initial, eon) && ValidSetting(env, initial, eon) && env.start <= c
    requires s == SyncDKG(env, initial, eon, env.start, c)
    ensures m.step(m.initial, 0, c) == Concluded(s)
  {
    StepOf(m, env, initial, eon, m.initial, 0, c);
    StepEarly(env, initial, eon, 0, c);
  }

  lemma DecisionAfterLoading(m: Machine<Progress>, env: Env, initial: State, eon: DKGEon, c: int, c': int, s: State)
    requires Drives(m, env, initial, eon) && Fed(env, s)
    ensures m.step(m.reload(Running(s)), c + 1, c') == Concluded(SyncDKG(env, Reloaded(s), eon, c + 1, c'))
  {
    assert m.reload(Running(s)) == Running(Reloaded(s));
    StepOf(m, env, initial, eon, Running(Reloaded(s)), c + 1, c');
  }

  /** A keyper decides, restarts and decides again. */
  lemma RestartedDkg(env: Env, initial: State, eon: DKGEon, c: int, c': int, s: State)
    requires ValidSetting(env, initial, eon) && env.start <= c <= c'
    requires s == SyncDKG(env, initial, eon, env.start, c) && s.phase != Finalized
    ensures s.Valid() && SameKeyper(initial, s)
    ensures MemoryAfter(env, initial, eon, RestartAfter(c, c')).dkg
         == Some(Concluded(SyncDKG(env, Reloaded(s), eon, c + 1, c')))
  {
    var m := DkgMachine(env, initial, eon);
    MachineDrives(env, initial, eon);
    IdealFacts(env, initial, eon, c, s);
    FirstDecision(m, env, initial, eon, c, s);
    DecisionAfterLoading(m, env, initial, eon, c, c', s);
    RestartAfterIs(m, MildDkg(), c, c');
  }

  /** The run is benign exactly if the saved DKG was such that loading does no harm. */
  lemma RestartedBenignly(env: Env, initial: State, eon: DKGEon, c: int, c': int, s: State)
    requires ValidSetting(env, initial, eon) && env.start <= c <= c'
    requires s == SyncDKG(env, initial, eon, env.start, c) && s.phase != Finalized
    ensures s.Valid() && (Benign(env, initial, eon, RestartAfter(c, c')) <==> Mild(s))
  {
    var m := DkgMachine(env, initial, eon);
    MachineDrives(env, initial, eon);
    IdealFacts(env, initial, eon, c, s);
    FirstDecision(m, env, initial, eon, c, s);
    RestartAfterIs(m, MildDkg(), c, c');
  }

  /** A keyper decides once. */
  lemma StraightDkg(env: Env, initial: State, eon: DKGEon, c: int)
    requires ValidSetting(env, initial, eon) && env.start <= c
    ensures MemoryAfter(env, initial, eon, [Step(c, true)]).dkg == Some(Concluded(SyncDKG(env, initial, eon, env.start, c)))
  {
    var m := DkgMachine(env, initial, eon);
    MachineDrives(env, initial, eon);
    StepOf(m, env, initial, eon, m.initial, 0, c);
    StepEarly(env, initial, eon, 0, c);
    StepIs(m, c);
  }

  // ----- a restart before the first decision

  /** The chain with one commitment, by the first keyper, in the eon's first block. */
  function OneCommitmentEon(env: Env, s: State): (eon: DKGEon)
    requires s.pub.numKeypers == |env.keypers| > 0
    ensures eon.SortedLists()
  {
    Eon(s.eon, env.start, 0,
        [At(env.start, CommitmentMsg(s.eon, env.keypers[0], seq(s.pub.threshold, _ => 0)))], [], [], [])
  }

  lemma FirstOfOne(env: Env, s: State, b: State, h: int, c: int)
    requires s.pub.numKeypers == |env.keypers| > 0 && SameKeyper(s, b)
    requires env.PhaseOf(env.start) == Dealing && env.start <= c
    ensures FirstCommitment(env, b, Window(OneCommitmentEon(env, s).commitments, h, c), 0).Some? <==> h <= env.start
  {
    var e := OneCommitmentEon(env, s).commitments[0];
    assert [e] == [] + [e];
    WindowSnoc([], e, h, c);
    assert Window([e], h, c) == Within(e, h, c);
    if h <= env.start {
      assert CountsFor(env, b, e, 0);
    }
  }

  /** The commitment of the eon's first block is seen exactly by steps that read from
      that block or from before it. */
  lemma FirstBlockSeen(env: Env, s: State, h: int, c: int)
    requires s.Valid() && s.phase == Off && s.pub.numKeypers == |env.keypers| > 0
    requires env.PhaseOf(env.start) == Dealing && env.start <= c && h <= c + 1
    requires s.pub.commitments[0].None?
    ensures SyncDKG(env, s, OneCommitmentEon(env, s), h, c).pub.commitments[0].Some? <==> h <= env.start
  {
    var eon := OneCommitmentEon(env, s);
    SyncByParts(env, s, eon, h, c);
    var b := AsOff(Begun(env, s, env.PhaseOf(c + 1)));
    CommitmentsExact(env, b, Window(eon.commitments, h, c), 0);
    FirstOfOne(env, s, b, h, c);
  }

  /** The keyper that restarts before its first decision agrees with the one that
      does not, on this chain. */
  ghost predicate Agree(env: Env, initial: State, eon: DKGEon, c0: int, c: int) {
    Restarted(DkgMachine(env, initial, eon), c0, c) == Straight(DkgMachine(env, initial, eon), c)
  }

  /** The one has read from c0 on, the other from the beginning. */
  lemma AgreeIs(env: Env, initial: State, eon: DKGEon, c0: int, c: int)
    requires initial.Valid() && initial.phase == Off && initial.pub.numKeypers == |env.keypers|
    requires 0 < c0 <= c && env.start <= c
    ensures Agree(env, initial, eon, c0, c) <==> SyncDKG(env, initial, eon, c0, c) == SyncDKG(env, initial, eon, 0, c)
  {
    var m := DkgMachine(env, initial, eon);
    RestartedIs(m, c0, c);
    MachineDrives(env, initial, eon);
    StepOf(m, env, initial, eon, m.initial, c0, c);
    StepOf(m, env, initial, eon, m.initial, 0, c);
  }

  lemma MissedCommitment(env: Env, initial: State, c0: int, c: int)
    requires initial.Valid() && initial.phase == Off && initial.pub.numKeypers == |env.keypers| > 0
    requires env.start >= 0 && env.PhaseOf(env.start) == Dealing && initial.pub.commitments[0].None?
    requires env.start < c0 <= c
    ensures !Agree(env, initial, OneCommitmentEon(env, initial), c0, c)
  {
    var eon := OneCommitmentEon(env, initial);
    FirstBlockSeen(env, initial, c0, c);
    FirstBlockSeen(env, initial, 0, c);
    AgreeIs(env, initial, eon, c0, c);
  }

  /** Loading a state without a sync height sets it to the current block. That is
      harmless exactly if the chain had not passed the eon's start: otherwise there is
      a chain on which the restarted keyper misses an event. */
  lemma FixUpHarmlessExactly(env: Env, initial: State, c0: int, c: int)
    requires initial.Valid() && initial.phase == Off && initial.pub.numKeypers == |env.keypers| > 0
    requires env.start >= 0 && env.plen.off == 0 && env.PhaseOf(env.start) == Dealing
    requires initial.pub.commitments[0].None?
    requires 0 < c0 <= c && env.start <= c
    ensures (forall eon: DKGEon :: eon.SortedLists() ==> Agree(env, initial, eon, c0, c)) <==> c0 <= env.start
  {
    if c0 <= env.start {
      forall eon: DKGEon | eon.SortedLists()
        ensures Agree(env, initial, eon, c0, c)
      {
        AgreeIs(env, initial, eon, c0, c);
        EarlyStart(env, initial, eon, c0, c);
        EarlyStart(env, initial, eon, 0, c);
      }
    } else {
      MissedCommitment(env, initial, c0, c);
    }
  }
}
