/** What keypers achieve that follow the protocol. A keyper that decides once in the
    accusing and once in the apologizing phase, and whose messages reach the chain in
    their phases, is found corrupt by nobody; and if there are as many such keypers as the
    threshold asks for, the DKG succeeds for each of them, whatever the others do. */
module HonestKeypers {
  import opened Sets
  import opened Addresses
  import opened Outcome
  import opened Modular
  import opened Groups
  import opened Feldman
  import opened Observe
  import opened DistributedKeyGeneration
  import opened KeyperSync
  import opened KeyperRuns
  import opened Chunking
  import opened Restarts
  import opened DkgRuns
  import opened Agreement
  import opened Decider

  // ----- what is on the chain is in the window

  lemma {:induction false} WindowHas<T>(events: seq<At<T>>, e: At<T>, h: int, c: int)
    ensures e in Window(events, h, c) <==> e in events && h <= e.height <= c
  {
    if events != [] {
      var n := |events| - 1;
      WindowHas(events[..n], e, h, c);
      assert events == events[..n] + [events[n]];
      WindowSnoc(events[..n], events[n], h, c);
    }
  }

  // ----- commitments

  /** The dealer has published g and no other commitment that counts. */
  ghost predicate Commits(env: Env, s: State, evs: seq<At<CommitmentMsg>>, dealer: nat, g: Gammas) {
    && (exists e :: e in evs && CountsFor(env, s, e, dealer))
    && (forall e :: e in evs && CountsFor(env, s, e, dealer) ==> e.msg.gammas == g)
  }

  lemma {:induction false} FirstCommitmentIs(env: Env, s: State, evs: seq<At<CommitmentMsg>>, dealer: nat, g: Gammas)
    requires Commits(env, s, evs, dealer, g)
    ensures FirstCommitment(env, s, evs, dealer) == Some(g)
    decreases |evs|
  {
    if !CountsFor(env, s, evs[0], dealer) {
      var e :| e in evs && CountsFor(env, s, e, dealer);
      assert e in evs[1..];
      FirstCommitmentIs(env, s, evs[1..], dealer, g);
    }
  }

  // ----- apologies

  ghost predicate ApologyOf(env: Env, ev: At<ApologyEvent>, dealer: nat) {
    env.PhaseOf(ev.height) == Apologizing && FindAddressIndex(env.keypers, ev.msg.sender) == Some(dealer)
  }

  /** The dealer has published these apologies, and no others, in their phase. */
  ghost predicate Apologizes(env: Env, evs: seq<At<ApologyEvent>>, dealer: nat, apologies: seq<(Address, int)>) {
    && (exists e :: e in evs && ApologyOf(env, e, dealer))
    && OnlyApology(env, evs, dealer, apologies)
  }

  ghost predicate OnlyApology(env: Env, evs: seq<At<ApologyEvent>>, dealer: nat, apologies: seq<(Address, int)>) {
    forall e :: e in evs && ApologyOf(env, e, dealer) ==> e.msg.apologies == apologies
  }

  lemma {:induction false} AnswersAre(env: Env, q: int, evs: seq<At<ApologyEvent>>, key: AccusationKey,
                                      apologies: seq<(Address, int)>)
    requires OnlyApology(env, evs, key.accused, apologies)
    ensures FirstValid(q, AnswersTo(env, evs, key)) ==
      if exists e :: e in evs && ApologyOf(env, e, key.accused) then FirstValid(q, AnswersIn(env, apologies, key.accuser))
      else None
    decreases |evs|
  {
    if evs != [] {
      var n := |evs| - 1;
      AnswersAre(env, q, evs[..n], key, apologies);
      FirstValidConcat(q, AnswersTo(env, evs[..n], key), AnswersOf(env, evs[n], key));
      assert evs == evs[..n] + [evs[n]];
      assert evs[n] in evs;
    }
  }

  /** An answer for every accusation, with the right value. */
  lemma RightAnswer(env: Env, q: int, s: State, p: Polynomial, msgs: seq<ApologyMsg>, key: AccusationKey)
    requires Distinct(env.keypers) && KnownAccusers(env.keypers, msgs) && s.pub.q == q > 0 && Answers(s, p, msgs)
    requires key.accused == s.keyper
    ensures FirstValid(q, AnswersIn(env, NewApology(env.keypers, msgs), key.accuser)) ==
      if key in s.pub.accusations then Some(PolyValue(p, KeyperX(key.accuser)) % q) else None
  {
    var right := (x: nat) => PolyValue(p, KeyperX(x)) % q;
    AnswersInNewApology(env, msgs, key.accuser);
    FirstAnswer(q, msgs, right, key.accuser);
    if i :| 0 <= i < |msgs| && msgs[i].key.accuser == key.accuser {
      assert msgs[i].key in s.pub.accusations && msgs[i].key == key;
    }
  }

  // ----- an honest dealer in the final view

  /** From the apologizing phase on no accusation is added. */
  lemma AccusationsSettled(env: Env, initial: State, eon: DKGEon, c: int, c': int, t: State, t': State)
    requires ValidSetting(env, initial, eon) && env.start <= c <= c' && Rank(env.PhaseOf(c + 1)) > Rank(Accusing)
    requires t == SyncDKG(env, initial, eon, env.start, c) && t' == SyncDKG(env, initial, eon, env.start, c')
    ensures t'.pub.accusations == t.pub.accusations
  {
    IdealFacts(env, initial, eon, c, t);
    IdealSteps(env, initial, eon, c, c', t);
    LateStep(env, t, eon, c, c');
    var w := Window(eon.accusations, c + 1, c');
    WindowHeights(eon.accusations, c + 1, c');
    WithoutBelow(env, w, c + 1, c', Accusing);
    AccusationsSkip(env, AsOff(t), w);
  }

  /** The apologies held are those read off the chain. */
  lemma ApologyReadOffChain(env: Env, initial: State, eon: DKGEon, c: int, t: State, key: AccusationKey)
    requires ValidSetting(env, initial, eon) && env.start <= c && initial.pub.apologies == map[]
    requires t == SyncDKG(env, initial, eon, env.start, c)
    ensures Entry(t.pub.apologies, key)
         == FirstValid(initial.pub.q, AnswersTo(env, Window(eon.apologies, env.start, c), key))
  {
    SyncByParts(env, initial, eon, env.start, c);
    ApologiesExact(env, AsOff(Begun(env, initial, env.PhaseOf(c + 1))), Window(eon.apologies, env.start, c), key);
  }

  lemma AccusersKnown(env: Env, initial: State, eon: DKGEon, c: int, t: State, key: AccusationKey)
    requires ValidSetting(env, initial, eon) && env.start <= c && initial.pub.accusations == {}
    requires t == SyncDKG(env, initial, eon, env.start, c) && key in t.pub.accusations
    ensures key.accuser < |env.keypers|
  {
    SyncByParts(env, initial, eon, env.start, c);
    AccusationsExact(env, AsOff(Begun(env, initial, env.PhaseOf(c + 1))), Window(eon.accusations, env.start, c), key);
  }

  /** Within the eon the phases other than the last are over once it has ended. */
  lemma InsideEon(env: Env, h: int, c: int)
    requires env.plen.off == 0 && env.PhaseOf(h) in {Dealing, Accusing, Apologizing} && env.PhaseOf(c + 1) == Finalized
    ensures env.start <= h <= c
  {
    if h > c {
      PhaseMonotone(env.plen, c + 1, h, env.start);
    }
  }

  lemma CommitmentInView(env: Env, initial: State, eon: DKGEon, c: int, t: State, g: Gammas)
    requires ValidSetting(env, initial, eon) && env.start <= c && env.PhaseOf(c + 1) == Finalized
    requires t == SyncDKG(env, initial, eon, env.start, c)
    requires initial.pub.commitments[initial.keyper].None? && initial.pub.accusations == {}
    requires Commits(env, initial, eon.commitments, initial.keyper, g)
    ensures t.pub.commitments[initial.keyper] == Some(g)
  {
    var d, w := initial.keyper, Window(eon.commitments, env.start, c);
    ViewReadOffChain(env, initial, eon, c, d, AccusationKey(0, 0));
    var e :| e in eon.commitments && CountsFor(env, initial, e, d);
    InsideEon(env, e.height, c);
    WindowHas(eon.commitments, e, env.start, c);
    forall e' | e' in w && CountsFor(env, initial, e', d)
      ensures e'.msg.gammas == g
    {
      WindowHas(eon.commitments, e', env.start, c);
    }
    FirstCommitmentIs(env, initial, w, d, g);
  }

  /** Every accusation against the dealer is answered, and rightly. */
  lemma AnswerInView(env: Env, initial: State, eon: DKGEon, c: int, t: State, s: State, msgs: seq<ApologyMsg>, key: AccusationKey)
    requires ValidSetting(env, initial, eon) && env.start <= c && env.PhaseOf(c + 1) == Finalized
    requires t == SyncDKG(env, initial, eon, env.start, c) && initial.pub.apologies == map[]
    requires Distinct(env.keypers) && KnownAccusers(env.keypers, msgs)
    requires s.pub.q == initial.pub.q && s.keyper == initial.keyper == key.accused && s.pub.q > 0
    requires Answers(s, env.polynomial, msgs) && Apologizes(env, eon.apologies, s.keyper, NewApology(env.keypers, msgs))
    ensures Entry(t.pub.apologies, key) ==
      if key in s.pub.accusations then Some(PolyValue(env.polynomial, KeyperX(key.accuser)) % s.pub.q) else None
  {
    var w, a := Window(eon.apologies, env.start, c), NewApology(env.keypers, msgs);
    ApologyReadOffChain(env, initial, eon, c, t, key);
    var e :| e in eon.apologies && ApologyOf(env, e, s.keyper);
    InsideEon(env, e.height, c);
    WindowHas(eon.apologies, e, env.start, c);
    forall e' | e' in w && ApologyOf(env, e', s.keyper)
      ensures e'.msg.apologies == a
    {
      WindowHas(eon.apologies, e', env.start, c);
    }
    AnswersAre(env, s.pub.q, w, key, a);
    RightAnswer(env, s.pub.q, s, env.polynomial, msgs, key);
  }

  // ----- what an honest keyper does

  /** A keyper's data, its run up to a decision in the accusing phase and up to one in the
      apologizing phase, and the messages it has sent. */
  datatype Conduct = Conduct(
    env: Env,
    initial: State,
    accusingOps: seq<Op>,
    apologizingOps: seq<Op>,
    gammas: Gammas,
    accused: seq<nat>,
    apologies: seq<ApologyMsg>)

  /** The run's last decision is one after which messages of the phase go out, and leaves
      the DKG s. */
  ghost predicate DecidesIn(k: Conduct, eon: DKGEon, ops: seq<Op>, phase: Phase, s: State) {
    && Benign(k.env, k.initial, eon, ops)
    && MemoryAfter(k.env, k.initial, eon, ops).dkg == Some(Running(s))
    && k.env.PhaseOf(MemoryAfter(k.env, k.initial, eon, ops).syncHeight) == phase
  }

  ghost predicate Starts(k: Conduct, eon: DKGEon) {
    && ValidSetting(k.env, k.initial, eon) && Distinct(k.env.keypers)
    && k.initial == NewState(k.initial.pub.q, k.initial.eon, |k.env.keypers|, k.initial.pub.threshold, k.initial.keyper)
    && |k.env.polynomial| == k.initial.pub.threshold >= 1
  }

  /** It deals as `Decider` does: the commitment is that of its polynomial. */
  ghost predicate DealsHonestly(k: Conduct, eon: DKGEon) {
    && Starts(k, eon)
    && CommitsTo(k.initial.pub.q, k.gammas, k.env.polynomial)
    && Commits(k.env, k.initial, eon.commitments, k.initial.keyper, k.gammas)
  }

  /** It answers as `Decider` does. */
  ghost predicate ApologizesHonestly(k: Conduct, eon: DKGEon, s: State) {
    && Starts(k, eon) && DecidesIn(k, eon, k.apologizingOps, Apologizing, s) && s.pub.q > 0
    && Answers(s, k.env.polynomial, k.apologies)
    && (KnownAccusers(k.env.keypers, k.apologies) ==>
          Apologizes(k.env, eon.apologies, k.initial.keyper, NewApology(k.env.keypers, k.apologies)))
  }

  /** After a benign run the DKG under way is like the one a single step makes. */
  lemma RunningAlike(k: Conduct, eon: DKGEon, ops: seq<Op>, phase: Phase, s: State) returns (c: int)
    requires Starts(k, eon) && DecidesIn(k, eon, ops, phase, s)
    ensures k.env.start <= c && k.env.PhaseOf(c + 1) == phase
    ensures Alike(s, SyncDKG(k.env, k.initial, eon, k.env.start, c))
  {
    c := MemoryAfter(k.env, k.initial, eon, ops).syncHeight - 1;
    var m := DkgMachine(k.env, k.initial, eon);
    LawfulAlike(k.env, k.initial, eon);
    RunIsLikeOneStep(m, AlikeDkg(), MildDkg(), ops, c);
    MachineDrives(k.env, k.initial, eon);
    IdealOf(m, k.env, k.initial, eon, c);
  }

  /** The answers are always to keypers of the eon. */
  lemma AccusersAreKeypers(k: Conduct, eon: DKGEon, s: State, msgs: seq<ApologyMsg>)
    requires Starts(k, eon) && DecidesIn(k, eon, k.apologizingOps, Apologizing, s) && s.pub.q > 0
    requires Answers(s, k.env.polynomial, msgs)
    ensures KnownAccusers(k.env.keypers, msgs)
  {
    var c := RunningAlike(k, eon, k.apologizingOps, Apologizing, s);
    var t := SyncDKG(k.env, k.initial, eon, k.env.start, c);
    forall i | 0 <= i < |msgs|
      ensures msgs[i].key.accuser < |k.env.keypers|
    {
      assert msgs[i].key in s.pub.accusations;
      AccusersKnown(k.env, k.initial, eon, c, t, msgs[i].key);
    }
  }

  /** The accusations that it has answered are all there are. */
  lemma AllAnswered(k: Conduct, eon: DKGEon, s: State, c: int, t: State)
    requires ApologizesHonestly(k, eon, s)
    requires k.env.start <= c && k.env.PhaseOf(c + 1) == Finalized
    requires t == SyncDKG(k.env, k.initial, eon, k.env.start, c)
    ensures SameKeyper(k.initial, s) && t.pub.accusations == s.pub.accusations
  {
    var a := RunningAlike(k, eon, k.apologizingOps, Apologizing, s);
    var u := SyncDKG(k.env, k.initial, eon, k.env.start, a);
    IdealFacts(k.env, k.initial, eon, a, u);
    InsideEon(k.env, a + 1, c);
    AccusationsSettled(k.env, k.initial, eon, a, c, u, t);
  }

  /** In every final view of the eon an honest dealer is one as `HonestDealer` says. */
  lemma HonestInView(k: Conduct, eon: DKGEon, s: State, c: int, t: State)
    requires DealsHonestly(k, eon) && ApologizesHonestly(k, eon, s)
    requires k.env.start <= c && k.env.PhaseOf(c + 1) == Finalized
    requires t == SyncDKG(k.env, k.initial, eon, k.env.start, c)
    ensures HonestDealer(t.pub, k.initial.keyper, k.env.polynomial)
  {
    var d, p, q := k.initial.keyper, k.env.polynomial, k.initial.pub.q;
    IdealFacts(k.env, k.initial, eon, c, t);
    AllAnswered(k, eon, s, c, t);
    AccusersAreKeypers(k, eon, s, k.apologies);
    CommitmentInView(k.env, k.initial, eon, c, t, k.gammas);
    forall key: AccusationKey | key.accused == d
      ensures key in t.pub.accusations <==> key in t.pub.apologies
      ensures key in t.pub.apologies ==> Cong(q, t.pub.apologies[key], PolyValue(p, KeyperX(key.accuser)))
    {
      AnswerInView(k.env, k.initial, eon, c, t, s, k.apologies, key);
      CongMod(q, PolyValue(p, KeyperX(key.accuser)));
    }
  }

  /** A keyper that deals and apologizes as the protocol says is not found corrupt by any
      keyper of the eon, after any benign run of that keyper and whatever it is accused
      of. */
  lemma HonestNeverFoundCorrupt(k: Conduct, eon: DKGEon, a: State, env: Env, initial: State, ops: seq<Op>, s: State)
    requires DealsHonestly(k, eon) && ApologizesHonestly(k, eon, a)
    requires SameEon(k.env, env, k.initial, initial) && Finished(env, initial, eon, ops, s)
    ensures s.Valid() && k.initial.keyper < s.pub.numKeypers && !Corrupt(s.pub, k.initial.keyper)
  {
    var c := BenignOutcome(env, initial, eon, ops, s);
    var t := SyncDKG(env, initial, eon, env.start, c);
    var u := SyncDKG(k.env, k.initial, eon, env.start, c);
    IdealFacts(k.env, k.initial, eon, c, u);
    IdealFacts(env, initial, eon, c, t);
    SameView(k.env, env, k.initial, initial, eon, c);
    HonestInView(k, eon, a, c, u);
    HonestNeverCorrupt(u.pub, k.initial.keyper, k.env.polynomial);
  }

  // ----- enough honest keypers

  ghost function NewAccusation(keypers: seq<Address>, accused: seq<nat>): seq<Address>
    requires KnownAccused(keypers, accused)
  {
    seq(|accused|, i requires 0 <= i < |accused| => keypers[accused[i]])
  }

  /** It accuses as `Decider` does, and the accusation is on the chain. */
  ghost predicate AccusesHonestly(k: Conduct, eon: DKGEon, s: State) {
    && Starts(k, eon) && DecidesIn(k, eon, k.accusingOps, Accusing, s)
    && s.Valid() && AccusesExactly(s, k.accused)
    && (KnownAccused(k.env.keypers, k.accused) ==>
          exists e :: e in eon.accusations
            && AccusationOf(k.env, e, k.initial.keyper, NewAccusation(k.env.keypers, k.accused)))
  }

  ghost predicate KnownAccused(keypers: seq<Address>, accused: seq<nat>) {
    forall i :: 0 <= i < |accused| ==> accused[i] < |keypers|
  }

  /** The accused are always keypers of the eon. */
  lemma AccusedAreKeypers(k: Conduct, eon: DKGEon, s: State)
    requires Starts(k, eon) && DecidesIn(k, eon, k.accusingOps, Accusing, s) && s.Valid() && AccusesExactly(s, k.accused)
    ensures KnownAccused(k.env.keypers, k.accused)
  {
    var c := RunningAlike(k, eon, k.accusingOps, Accusing, s);
    IdealFacts(k.env, k.initial, eon, c, SyncDKG(k.env, k.initial, eon, k.env.start, c));
    forall i | 0 <= i < |k.accused|
      ensures k.accused[i] < |k.env.keypers|
    {
      assert k.accused[i] in k.accused;
    }
  }

  ghost predicate AccusationOf(env: Env, ev: At<AccusationMsg>, accuser: nat, accused: seq<Address>) {
    && env.PhaseOf(ev.height) == Accusing && FindAddressIndex(env.keypers, ev.msg.sender) == Some(accuser)
    && ev.msg.accused == accused
  }

  lemma NamesAccused(env: Env, accused: seq<nat>, d: nat)
    requires Distinct(env.keypers) && d in accused
    requires KnownAccused(env.keypers, accused)
    ensures Names(env, NewAccusation(env.keypers, accused), d)
  {
    var i :| 0 <= i < |accused| && accused[i] == d;
    IndexOf(env.keypers, d);
    assert NewAccusation(env.keypers, accused)[i] == env.keypers[d];
  }

  /** Whom the keyper accuses stands accused in the final view. */
  lemma AccusedInView(k: Conduct, eon: DKGEon, s: State, c: int, t: State, d: nat)
    requires AccusesHonestly(k, eon, s) && d in k.accused
    requires k.env.start <= c && k.env.PhaseOf(c + 1) == Finalized
    requires t == SyncDKG(k.env, k.initial, eon, k.env.start, c)
    ensures AccusationKey(k.initial.keyper, d) in t.pub.accusations
  {
    var key, w := AccusationKey(k.initial.keyper, d), Window(eon.accusations, k.env.start, c);
    AccusedAreKeypers(k, eon, s);
    var e :| e in eon.accusations && AccusationOf(k.env, e, k.initial.keyper, NewAccusation(k.env.keypers, k.accused));
    InsideEon(k.env, e.height, c);
    WindowHas(eon.accusations, e, k.env.start, c);
    NamesAccused(k.env, k.accused, d);
    assert NamedBy(k.env, e.msg, key);
    var i :| 0 <= i < |w| && w[i] == e;
    assert Accused(k.env, w, key);
    ViewReadOffChain(k.env, k.initial, eon, c, k.initial.keyper, key);
  }

  /** Once dealing is over, commitments and values stay, and nothing is taken back. */
  lemma ListsSettled(env: Env, initial: State, eon: DKGEon, c: int, c': int, t: State, t': State)
    requires ValidSetting(env, initial, eon) && env.start <= c <= c' && Rank(env.PhaseOf(c + 1)) > Rank(Dealing)
    requires t == SyncDKG(env, initial, eon, env.start, c) && t' == SyncDKG(env, initial, eon, env.start, c')
    ensures t'.Valid() && SameKeyper(t, t') && Grown(t.pub, t'.pub)
    ensures t'.pub.commitments == t.pub.commitments && t'.evals == t.evals
  {
    IdealFacts(env, initial, eon, c, t);
    IdealFacts(env, initial, eon, c', t');
    IdealSteps(env, initial, eon, c, c', t);
    LateStep(env, t, eon, c, c');
    LateStepGrows(env, t, eon, c, c');
  }

  /** The dealer's own value for this keyper is right, or can play no part any more. */
  ghost predicate ValueHarmless(s: State, d: nat)
    requires s.Valid() && d < s.pub.numKeypers
  {
    s.pub.commitments[d].Some? &&
    (AccusationKey(s.keyper, d) in s.pub.accusations || AccusationKey(s.keyper, d) in s.pub.apologies
     || (exists key :: BadApology(s.pub, d, key))
     || (s.evals[d].Some? && Verifies(s.pub.q, s.keyper, s.evals[d].value, s.pub.commitments[d].value, s.pub.threshold)))
  }

  /** Whom a keyper does not accuse has given it a harmless value, also for the DKG that a
      single step makes. */
  lemma NotAccusedHarmless(s: State, u: State, d: nat)
    requires Alike(s, u) && d < s.pub.numKeypers && s.pub.threshold >= 1
    requires d != s.keyper && !Accuses(s, d)
    ensures ValueHarmless(u, d)
  {
    assert AlikeFor(s, u, d);
  }

  /** A dealer that is not found corrupt in the end has given this keyper a right value. */
  lemma HarmlessNotHidden(u: State, t: State, d: nat)
    requires u.Valid() && t.Valid() && SameKeyper(u, t) && d < u.pub.numKeypers && ValueHarmless(u, d)
    requires Grown(u.pub, t.pub) && t.pub.commitments == u.pub.commitments && t.evals == u.evals
    ensures !HiddenCorrupt(t, d)
  {
    if !Corrupt(t.pub, d) {
      if key :| BadApology(u.pub, d, key) {
        assert BadApology(t.pub, d, key);
      }
      var own := AccusationKey(t.keyper, d);
      assert !Unanswered(t.pub, d, own) && !BadApology(t.pub, d, own);
    }
  }

  lemma AnsweredNotHidden(t: State, d: nat)
    requires t.Valid() && d < t.pub.numKeypers && AccusationKey(t.keyper, d) in t.pub.accusations
    ensures !HiddenCorrupt(t, d)
  {
    if !Corrupt(t.pub, d) {
      var own := AccusationKey(t.keyper, d);
      assert !Unanswered(t.pub, d, own) && !BadApology(t.pub, d, own);
    }
  }

  /** An honest keyper is not deceived by any other dealer: what is wrong with it shows in
      public. */
  lemma NothingHidden(k: Conduct, eon: DKGEon, s: State, c: int, t: State, d: nat)
    requires AccusesHonestly(k, eon, s) && d < |k.env.keypers| && d != k.initial.keyper
    requires k.env.start <= c && k.env.PhaseOf(c + 1) == Finalized
    requires t == SyncDKG(k.env, k.initial, eon, k.env.start, c)
    ensures t.Valid() && d < t.pub.numKeypers && !HiddenCorrupt(t, d)
  {
    var a := RunningAlike(k, eon, k.accusingOps, Accusing, s);
    var u := SyncDKG(k.env, k.initial, eon, k.env.start, a);
    IdealFacts(k.env, k.initial, eon, a, u);
    IdealFacts(k.env, k.initial, eon, c, t);
    InsideEon(k.env, a + 1, c);
    if Accuses(s, d) {
      AccusedInView(k, eon, s, c, t, d);
      AnsweredNotHidden(t, d);
    } else {
      NotAccusedHarmless(s, u, d);
      ListsSettled(k.env, k.initial, eon, a, c, u, t);
      HarmlessNotHidden(u, t, d);
    }
  }

  lemma SelfNotHidden(t: State, p: Polynomial)
    requires t.Valid() && HonestDealer(t.pub, t.keyper, p)
    requires t.evals[t.keyper] == Some(PolyValue(p, KeyperX(t.keyper)) % t.pub.q)
    ensures !HiddenCorrupt(t, t.keyper)
  {
    CongMod(t.pub.q, PolyValue(p, KeyperX(t.keyper)));
    FeldmanExact(t.pub.q, p, t.pub.commitments[t.keyper].value, t.pub.threshold,
                 t.keyper, ReceivedEval(t, t.keyper).value);
  }

  /** Dealers below n that are not corrupt take part. */
  lemma {:induction false} ParticipantsAtLeast(b: Broadcast, n: nat, dealers: set<nat>)
    requires b.Valid() && n <= b.numKeypers
    requires forall d :: d in dealers ==> d < n && !Corrupt(b, d)
    ensures Participants(b, n) >= |dealers|
  {
    if n == 0 {
      assert dealers == {};
    } else {
      var rest := dealers - {n - 1};
      ParticipantsAtLeast(b, n - 1, rest);
      assert |rest| >= |dealers| - if n - 1 in dealers then 1 else 0;
      assert n - 1 !in dealers ==> rest == dealers;
    }
  }

  /** A keyper that does all that the protocol asks of it. */
  ghost predicate Honest(k: Conduct, eon: DKGEon) {
    && DealsHonestly(k, eon)
    && (exists s :: AccusesHonestly(k, eon, s))
    && (exists s :: ApologizesHonestly(k, eon, s))
  }

  /** The keypers' conducts under their indices, in one eon. */
  ghost predicate AllHonest(honest: map<nat, Conduct>, eon: DKGEon) {
    && (forall d :: d in honest ==> Honest(honest[d], eon) && honest[d].initial.keyper == d)
    && forall d, e :: d in honest && e in honest ==>
         SameEon(honest[d].env, honest[e].env, honest[d].initial, honest[e].initial)
  }

  lemma HonestNotCorruptIn(honest: map<nat, Conduct>, eon: DKGEon, me: nat, d: nat, c: int, t: State)
    requires AllHonest(honest, eon) && me in honest && d in honest
    requires honest[me].env.start <= c && honest[me].env.PhaseOf(c + 1) == Finalized
    requires t == SyncDKG(honest[me].env, honest[me].initial, eon, honest[me].env.start, c)
    ensures t.Valid() && d < t.pub.numKeypers && HonestDealer(t.pub, d, honest[d].env.polynomial) && !Corrupt(t.pub, d)
  {
    var k, o := honest[me], honest[d];
    var a :| ApologizesHonestly(o, eon, a);
    var u := SyncDKG(o.env, o.initial, eon, o.env.start, c);
    IdealFacts(k.env, k.initial, eon, c, t);
    IdealFacts(o.env, o.initial, eon, c, u);
    SameView(o.env, k.env, o.initial, k.initial, eon, c);
    HonestInView(o, eon, a, c, u);
    HonestNeverCorrupt(t.pub, d, o.env.polynomial);
  }

  lemma NothingHiddenAtAll(honest: map<nat, Conduct>, eon: DKGEon, me: nat, c: int, t: State)
    requires AllHonest(honest, eon) && me in honest
    requires honest[me].env.start <= c && honest[me].env.PhaseOf(c + 1) == Finalized
    requires t == SyncDKG(honest[me].env, honest[me].initial, eon, honest[me].env.start, c)
    ensures t.Valid() && forall d :: 0 <= d < t.pub.numKeypers ==> !HiddenCorrupt(t, d)
  {
    var k := honest[me];
    var s :| AccusesHonestly(k, eon, s);
    IdealFacts(k.env, k.initial, eon, c, t);
    forall d | 0 <= d < t.pub.numKeypers
      ensures !HiddenCorrupt(t, d)
    {
      if d == me {
        HonestNotCorruptIn(honest, eon, me, me, c, t);
        OwnValue(k.env, k.initial, eon, c, t);
        SelfNotHidden(t, k.env.polynomial);
      } else {
        NothingHidden(k, eon, s, c, t, d);
      }
    }
  }

  /** If at least `threshold` many keypers are honest, the DKG succeeds for each of them
      once it has finished, after any benign run and whatever the other keypers send. */
  lemma EnoughHonestKeypers(honest: map<nat, Conduct>, eon: DKGEon, me: nat, ops: seq<Op>, s: State)
    requires AllHonest(honest, eon) && me in honest && |honest| >= honest[me].initial.pub.threshold
    requires Finished(honest[me].env, honest[me].initial, eon, ops, s)
    ensures s.Valid() && Succeeds(s)
  {
    var k := honest[me];
    var c := BenignOutcome(k.env, k.initial, eon, ops, s);
    var t := SyncDKG(k.env, k.initial, eon, k.env.start, c);
    IdealFacts(k.env, k.initial, eon, c, t);
    NothingHiddenAtAll(honest, eon, me, c, t);
    forall d | d in honest.Keys
      ensures d < t.pub.numKeypers && !Corrupt(t.pub, d)
    {
      HonestNotCorruptIn(honest, eon, me, d, c, t);
    }
    ParticipantsAtLeast(t.pub, t.pub.numKeypers, honest.Keys);
    assert |honest.Keys| == |honest|;
  }

  // ----- too few dealers

  /** The dealers that have published a commitment that counts. */
  ghost function Publishers(env: Env, initial: State, eon: DKGEon): set<nat> {
    set d | 0 <= d < |env.keypers| && Publishes(env, initial, eon, d)
  }

  ghost predicate Publishes(env: Env, initial: State, eon: DKGEon, d: nat) {
    exists e :: e in eon.commitments && CountsFor(env, initial, e, d)
  }

  lemma {:induction false} FirstCommitmentFrom(env: Env, s: State, evs: seq<At<CommitmentMsg>>, d: nat)
    ensures FirstCommitment(env, s, evs, d).Some? ==> exists e :: e in evs && CountsFor(env, s, e, d)
    decreases |evs|
  {
    if evs != [] && !CountsFor(env, s, evs[0], d) {
      FirstCommitmentFrom(env, s, evs[1..], d);
      if FirstCommitment(env, s, evs, d).Some? {
        var e :| e in evs[1..] && CountsFor(env, s, e, d);
        assert e in evs;
      }
    }
  }

  /** Who has published nothing is corrupt. */
  lemma SilentIsCorrupt(env: Env, initial: State, eon: DKGEon, c: int, t: State, d: nat)
    requires ValidSetting(env, initial, eon) && env.start <= c && t == SyncDKG(env, initial, eon, env.start, c)
    requires initial.pub.accusations == {} && d < |env.keypers| && initial.pub.commitments[d].None?
    requires !Publishes(env, initial, eon, d)
    ensures t.Valid() && d < t.pub.numKeypers && Corrupt(t.pub, d)
  {
    var w := Window(eon.commitments, env.start, c);
    IdealFacts(env, initial, eon, c, t);
    ViewReadOffChain(env, initial, eon, c, d, AccusationKey(0, 0));
    FirstCommitmentFrom(env, initial, w, d);
    if e :| e in w && CountsFor(env, initial, e, d) {
      WindowHas(eon.commitments, e, env.start, c);
      assert Publishes(env, initial, eon, d);
    }
  }

  /** If fewer than `threshold` many dealers publish a commitment that counts, no keyper of
      the eon succeeds, after any benign run. */
  lemma TooFewDealersFail(env: Env, initial: State, eon: DKGEon, ops: seq<Op>, s: State)
    requires Finished(env, initial, eon, ops, s)
    requires initial == NewState(initial.pub.q, initial.eon, |env.keypers|, initial.pub.threshold, initial.keyper)
    requires |Publishers(env, initial, eon)| < initial.pub.threshold
    ensures s.Valid() && !Succeeds(s)
  {
    var c := BenignOutcome(env, initial, eon, ops, s);
    var t := SyncDKG(env, initial, eon, env.start, c);
    IdealFacts(env, initial, eon, c, t);
    var taking := set d | 0 <= d < t.pub.numKeypers && !Corrupt(t.pub, d);
    forall d | d in taking
      ensures d in Publishers(env, initial, eon)
    {
      if !Publishes(env, initial, eon, d) {
        SilentIsCorrupt(env, initial, eon, c, t, d);
      }
    }
    SmallerSet(taking, Publishers(env, initial, eon));
    SucceedsExactly(t);
  }
}
