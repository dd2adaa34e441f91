/** A restart that does harm, as a concrete run: two keypers watch one chain, one of them
    restarts once while dealing, both finish and succeed, and their public keys differ.

    The restarted keyper has saved the first block of the eon, before the other dealer's
    commitment. After loading, an empty commitment stands in its place, so the real one
    is rejected as a duplicate; the keyper accuses the dealer and finds its right apology
    wrong. */
module HarmfulRestart {
  import opened Addresses
  import opened Outcome
  import opened Modular
  import opened Groups
  import opened Feldman
  import opened Keys
  import opened Observe
  import opened DistributedKeyGeneration
  import opened KeyperSync
  import opened KeyperRuns
  import opened Chunking
  import opened Restarts
  import opened DkgRuns
  import opened Agreement
  import Encryption

  const Q: int := 5
  const START: int := 100
  const END: int := 130
  const KEYPERS: seq<Address> := [10, 11]
  const KEY: AccusationKey := AccusationKey(0, 1)

  function Dealer(k: nat): Polynomial {
    [k + 1]
  }

  function KeyperEnv(k: nat): Env {
    Env(KEYPERS, ConstantPhaseLength(10), START, (b: Encryption.Bytes) => Some(b), Dealer(k))
  }

  function Created(k: nat): (s: State)
    requires k < 2
    ensures s.Valid() && s.phase == Off && s.keyper == k && s.pub.numKeypers == 2
  {
    State(Off, 0, k, None, Broadcast(Q, 2, 1, [None, None], {}, map[]), [None, None])
  }

  function CommitmentOf(k: nat): At<CommitmentMsg>
    requires k < 2
  {
    At(START + k, CommitmentMsg(0, KEYPERS[k], Dealer(k)))
  }

  /** Both values go out with the commitments. */
  function EvalOf(k: nat): At<EvalMsg>
    requires k < 2
  {
    At(START + k, EvalMsg(0, KEYPERS[k], [(KEYPERS[1 - k], [(k + 1) as bv8])]))
  }

  function TheAccusation(): At<AccusationMsg> {
    At(START + 11, AccusationMsg(KEYPERS[0], [KEYPERS[1]]))
  }

  function TheApology(): At<ApologyEvent> {
    At(START + 21, ApologyEvent(KEYPERS[1], [(KEYPERS[0], 2)]))
  }

  function Chain(): (eon: DKGEon)
    ensures eon.SortedLists()
  {
    Eon(0, START, 0, [CommitmentOf(0), CommitmentOf(1)], [EvalOf(0), EvalOf(1)], [TheAccusation()], [TheApology()])
  }

  // ----- short lists

  lemma WindowOfOne<T>(e: At<T>, h: int, c: int)
    ensures Window([e], h, c) == Within(e, h, c)
  {
    assert [] + [e] == [e];
    WindowSnoc([], e, h, c);
  }

  lemma WindowOfTwo<T>(d: At<T>, e: At<T>, h: int, c: int)
    ensures Window([d, e], h, c) == Within(d, h, c) + Within(e, h, c)
  {
    assert [d] + [e] == [d, e];
    WindowOfOne(d, h, c);
    WindowSnoc([d], e, h, c);
  }

  lemma Positions()
    ensures FindAddressIndex(KEYPERS, 10) == Some(0) && FindAddressIndex(KEYPERS, 11) == Some(1)
  {
    IndexOf(KEYPERS, 0);
    IndexOf(KEYPERS, 1);
  }

  lemma FeedCommitments(env: Env, s: State, d: At<CommitmentMsg>, e: At<CommitmentMsg>)
    requires s.Valid() && s.pub.numKeypers == |env.keypers|
    ensures Commitments(env, s, []) == s && Commitments(env, s, [d]) == OneCommitment(env, s, d)
    ensures Commitments(env, s, [d, e]) == OneCommitment(env, OneCommitment(env, s, d), e)
  {
    assert [d, e][..1] == [d] && [d][..0] == [];
  }

  lemma FeedEvals(env: Env, s: State, d: At<EvalMsg>, e: At<EvalMsg>)
    requires s.Valid() && s.pub.numKeypers == |env.keypers|
    ensures PolyEvals(env, s, []) == s && PolyEvals(env, s, [d]) == OneEvalMsg(env, s, d)
    ensures PolyEvals(env, s, [d, e]) == OneEvalMsg(env, OneEvalMsg(env, s, d), e)
  {
    assert [d, e][..1] == [d] && [d][..0] == [];
  }

  lemma FeedLate(env: Env, s: State, a: At<AccusationMsg>, p: At<ApologyEvent>)
    requires s.Valid() && s.pub.numKeypers == |env.keypers|
    ensures Accusations(env, s, []) == s && Accusations(env, s, [a]) == OneAccusation(env, s, a)
    ensures Apologies(env, s, []) == s && Apologies(env, s, [p]) == OneApology(env, s, p)
  {
    assert [a][..0] == [] && [p][..0] == [];
  }

  // ----- the two messages that matter at the end

  lemma AccusationTaken(k: nat, s: State)
    requires k < 2 && s.Valid() && s.phase == Off && s.pub.numKeypers == 2 && s.pub.accusations == {}
    ensures OneAccusation(KeyperEnv(k), s, TheAccusation()).pub.accusations == {KEY}
  {
    Positions();
    var l := [KEYPERS[1]];
    assert l[..0] == [];
    assert AccusationList(KeyperEnv(k), s, 0, []) == s;
  }

  lemma ApologyTaken(k: nat, s: State)
    requires k < 2 && s.Valid() && s.phase == Off && s.pub.numKeypers == 2 && s.pub.apologies == map[] && s.pub.q == Q
    ensures OneApology(KeyperEnv(k), s, TheApology()).pub.apologies == map[KEY := 2]
  {
    Positions();
    var l := [(KEYPERS[0], 2)];
    assert l[..0] == [];
    assert ApologyList(KeyperEnv(k), s, 1, []) == s;
  }

  /** A keyper past the eon's first block has its lists of commitments and values, and
      steps to the end. */
  lemma LastStep(k: nat, s: State, h: int, cs: seq<Option<Gammas>>, es: seq<Option<int>>)
    requires k < 2 && s.Valid() && s.pub.numKeypers == 2 && s.pub.q == Q
    requires Rank(s.phase) <= Rank(KeyperEnv(k).PhaseOf(h)) && h <= START + 1
    requires s.pub.accusations == {} && s.pub.apologies == map[]
    requires var b := AsOff(Begun(KeyperEnv(k), s, Finalized));
      && Commitments(KeyperEnv(k), b, Window(Chain().commitments, h, END)).pub.commitments == cs
      && PolyEvals(KeyperEnv(k), b, Window(Chain().polyEvals, h, END)).evals == es
    ensures var b := Begun(KeyperEnv(k), s, Finalized);
      SyncDKG(KeyperEnv(k), s, Chain(), h, END) ==
        b.(phase := Finalized, evals := es,
           pub := b.pub.(commitments := cs, accusations := {KEY}, apologies := map[KEY := 2]))
  {
    var env := KeyperEnv(k);
    SyncByParts(env, s, Chain(), h, END);
    WindowOfOne(TheAccusation(), h, END);
    WindowOfOne(TheApology(), h, END);
    var b := AsOff(Begun(env, s, Finalized));
    FeedLate(env, b, TheAccusation(), TheApology());
    AccusationTaken(k, b);
    ApologyTaken(k, b);
  }

  // ----- the keyper that does not restart

  /** What keyper k holds after the chain, having commitment c and value e of dealer 1. */
  function Ended(k: nat, c: Gammas, e: int): (s: State)
    requires k < 2
    ensures s.Valid()
  {
    State(Finalized, 0, k, Some(Dealer(k)),
          Broadcast(Q, 2, 1, [Some(Dealer(0)), Some(c)], {KEY}, map[KEY := 2]), [Some(1), Some(e)])
  }

  lemma DealtValue(k: nat)
    requires k < 2
    ensures PolyValue(Dealer(k), KeyperX(k)) % Q == k + 1
  {
    ConstantValue(k + 1, KeyperX(k));
  }

  lemma ConstantValue(v: int, x: int)
    ensures PolyValue([v], x) == v
  {
    assert [v][..0] == [];
    assert PolyValue([], x) == 0 && Pow(x, 0) == 1;
  }

  lemma OneByte(v: bv8)
    ensures Encryption.SetBytes([v]) == v as nat
  {
    assert [v][..0] == [];
    assert Encryption.SetBytes([]) == 0;
  }

  /** The value of the other dealer, in a message to keyper k. */
  lemma ValueTaken(k: nat, s: State)
    requires k < 2 && s.Valid() && s.phase == Off && s.pub.numKeypers == 2 && s.keyper == k && s.eon == 0 && s.pub.q == Q
    ensures OneEvalMsg(KeyperEnv(k), s, EvalOf(k)) == s
    ensures OneEvalMsg(KeyperEnv(k), s, EvalOf(1 - k)) ==
      if s.evals[1 - k].Some? then s else s.(evals := s.evals[1 - k := Some(2 - k)])
  {
    Positions();
    var l := EvalOf(1 - k).msg.evals;
    assert l[..0] == [];
    assert EvalList(KeyperEnv(k), s, 0, 1 - k, []) == s;
    OneByte((2 - k) as bv8);
  }

  /** The commitment of dealer d, seen by keyper k. */
  lemma CommitmentTaken(k: nat, d: nat, s: State)
    requires k < 2 && d < 2 && s.Valid() && s.phase == Off && s.pub.numKeypers == 2 && s.eon == 0 && s.pub.threshold == 1
    ensures OneCommitment(KeyperEnv(k), s, CommitmentOf(d)) ==
      if s.pub.commitments[d].Some? then s
      else s.(pub := s.pub.(commitments := s.pub.commitments[d := Some(Dealer(d))]))
  {
    Positions();
  }

  lemma StraightCommitments(b: State)
    requires b.Valid() && b.phase == Off && b.keyper == 1 && b.eon == 0 && b.pub == Created(1).pub
    ensures Commitments(KeyperEnv(1), b, Window(Chain().commitments, START, END)).pub.commitments
         == [Some(Dealer(0)), Some(Dealer(1))]
  {
    var one := b.(pub := b.pub.(commitments := [Some(Dealer(0)), None]));
    CommitmentTaken(1, 0, b);
    assert OneCommitment(KeyperEnv(1), b, CommitmentOf(0)) == one;
    CommitmentTaken(1, 1, one);
    WindowOfTwo(CommitmentOf(0), CommitmentOf(1), START, END);
    FeedCommitments(KeyperEnv(1), b, CommitmentOf(0), CommitmentOf(1));
  }

  lemma StraightEvals(b: State)
    requires b.Valid() && b.phase == Off && b.keyper == 1 && b.eon == 0 && b.pub.q == Q && b.pub.numKeypers == 2
    requires b.evals == [None, Some(2)]
    ensures PolyEvals(KeyperEnv(1), b, Window(Chain().polyEvals, START, END)).evals == [Some(1), Some(2)]
  {
    var both := b.(evals := [Some(1), Some(2)]);
    ValueTaken(1, b);
    assert OneEvalMsg(KeyperEnv(1), b, EvalOf(0)) == both;
    ValueTaken(1, both);
    WindowOfTwo(EvalOf(0), EvalOf(1), START, END);
    FeedEvals(KeyperEnv(1), b, EvalOf(0), EvalOf(1));
  }

  lemma StraightThrough()
    ensures SyncDKG(KeyperEnv(1), Created(1), Chain(), START, END) == Ended(1, Dealer(1), 2)
  {
    var b := AsOff(Begun(KeyperEnv(1), Created(1), Finalized));
    DealtValue(1);
    assert b.evals == [None, Some(2)];
    StraightCommitments(b);
    StraightEvals(b);
    LastStep(1, Created(1), START, [Some(Dealer(0)), Some(Dealer(1))], [Some(1), Some(2)]);
  }

  // ----- the keyper that restarts

  /** What keyper 0 saves after the eon's first block. */
  function FirstSaved(): (s: State)
    ensures s.Valid()
  {
    State(Dealing, 0, 0, Some(Dealer(0)), Broadcast(Q, 2, 1, [Some(Dealer(0)), None], {}, map[]), [Some(1), None])
  }

  lemma FirstLists(b: State)
    requires b.Valid() && b.phase == Off && b.keyper == 0 && b.eon == 0
    requires b.pub == Created(0).pub && b.evals == [Some(1), None]
    ensures Commitments(KeyperEnv(0), b, Window(Chain().commitments, START, START)).pub.commitments == [Some(Dealer(0)), None]
    ensures PolyEvals(KeyperEnv(0), b, Window(Chain().polyEvals, START, START)).evals == b.evals
  {
    var env := KeyperEnv(0);
    CommitmentTaken(0, 0, b);
    WindowOfTwo(CommitmentOf(0), CommitmentOf(1), START, START);
    FeedCommitments(env, b, CommitmentOf(0), CommitmentOf(1));
    WindowOfTwo(EvalOf(0), EvalOf(1), START, START);
    FeedEvals(env, b, EvalOf(0), EvalOf(1));
    ValueTaken(0, b);
  }

  lemma FirstLate(b: State)
    requires b.Valid() && b.pub.numKeypers == 2
    ensures Accusations(KeyperEnv(0), b, Window(Chain().accusations, START, START)) == b
    ensures Apologies(KeyperEnv(0), b, Window(Chain().apologies, START, START)) == b
  {
    WindowOfOne(TheAccusation(), START, START);
    WindowOfOne(TheApology(), START, START);
    FeedLate(KeyperEnv(0), b, TheAccusation(), TheApology());
  }

  lemma FirstBegun(b: State)
    requires b == AsOff(Begun(KeyperEnv(0), Created(0), Dealing))
    ensures b == State(Off, 0, 0, Some(Dealer(0)), Created(0).pub, [Some(1), None])
  {
    DealtValue(0);
  }

  lemma FirstBlock()
    ensures SyncDKG(KeyperEnv(0), Created(0), Chain(), START, START) == FirstSaved()
  {
    var env, s := KeyperEnv(0), Created(0);
    SyncByParts(env, s, Chain(), START, START);
    var b := AsOff(Begun(env, s, Dealing));
    FirstBegun(b);
    FirstLists(b);
    FirstLate(b);
  }

  /** After loading, what was missing counts as received. */
  function Loaded(): (s: State)
    ensures s.Valid()
  {
    FirstSaved().(evals := [Some(1), Some(0)],
                  pub := FirstSaved().pub.(commitments := [Some(Dealer(0)), Some(NO_COMMITMENT)]))
  }

  lemma LoadedIs()
    ensures Reloaded(FirstSaved()) == Loaded()
  {
    assert Reloaded(FirstSaved()).evals == Loaded().evals;
    assert Reloaded(FirstSaved()).pub.commitments == Loaded().pub.commitments;
  }

  /** The other dealer's commitment and value come too late. */
  lemma Duplicates(b: State)
    requires b.Valid() && b.phase == Off && b.pub.numKeypers == 2 && b.keyper == 0 && b.eon == 0 && b.pub.q == Q
    requires b.pub.commitments[1].Some? && b.evals[1].Some? && b.pub.threshold == 1
    ensures OneCommitment(KeyperEnv(0), b, CommitmentOf(1)) == b
    ensures OneEvalMsg(KeyperEnv(0), b, EvalOf(1)) == b
  {
    CommitmentTaken(0, 1, b);
    ValueTaken(0, b);
  }

  lemma LoadedLists(b: State)
    requires b.Valid() && b.phase == Off && b.pub.numKeypers == 2 && b.keyper == 0 && b.eon == 0 && b.pub.q == Q
    requires b.pub.commitments[1].Some? && b.evals[1].Some? && b.pub.threshold == 1
    ensures Commitments(KeyperEnv(0), b, Window(Chain().commitments, START + 1, END)) == b
    ensures PolyEvals(KeyperEnv(0), b, Window(Chain().polyEvals, START + 1, END)) == b
  {
    Duplicates(b);
    WindowOfTwo(CommitmentOf(0), CommitmentOf(1), START + 1, END);
    FeedCommitments(KeyperEnv(0), b, CommitmentOf(1), CommitmentOf(1));
    WindowOfTwo(EvalOf(0), EvalOf(1), START + 1, END);
    FeedEvals(KeyperEnv(0), b, EvalOf(1), EvalOf(1));
  }

  lemma AfterLoading()
    ensures SyncDKG(KeyperEnv(0), Loaded(), Chain(), START + 1, END) == Ended(0, NO_COMMITMENT, 0)
  {
    LoadedLists(AsOff(Loaded()));
    LastStep(0, Loaded(), START + 1, Loaded().pub.commitments, Loaded().evals);
  }

  // ----- the two outcomes

  lemma ConstantVerifies(k: nat, x: nat)
    ensures Verifies(Q, x, k + 1, Dealer(k), 1)
  {
    ConstantValue(k + 1, KeyperX(x));
    CongRefl(Q, k + 1);
  }

  /** Both dealers take part for keyper 1. */
  lemma BothCount()
    ensures Succeeds(Ended(1, Dealer(1), 2))
    ensures FinalCommitments(Ended(1, Dealer(1), 2).pub, 2) == [Dealer(0), Dealer(1)]
  {
    var s := Ended(1, Dealer(1), 2);
    ConstantVerifies(0, 1);
    ConstantVerifies(1, 1);
    ConstantVerifies(1, 0);
    assert forall d, key :: 0 <= d < 2 ==> !BadApology(s.pub, d, key) && !Unanswered(s.pub, d, key);
    assert !Corrupt(s.pub, 0) && !Corrupt(s.pub, 1);
    assert !HiddenCorrupt(s, 0) && !HiddenCorrupt(s, 1);
    assert Participants(s.pub, 1) == 1;
  }

  /** For keyper 0 dealer 1 is corrupt. */
  lemma OneCounts()
    ensures Succeeds(Ended(0, NO_COMMITMENT, 0))
    ensures FinalCommitments(Ended(0, NO_COMMITMENT, 0).pub, 2) == [Dealer(0), [ZERO]]
  {
    var s := Ended(0, NO_COMMITMENT, 0);
    ConstantVerifies(0, 0);
    assert forall key :: !BadApology(s.pub, 0, key) && !Unanswered(s.pub, 0, key);
    assert !Corrupt(s.pub, 0) && !HiddenCorrupt(s, 0);
    EmptyNeverVerifies(Q, 0, 2, 1);
    assert BadApology(s.pub, 1, KEY);
    assert Participants(s.pub, 1) == 1;
    assert FinalCommitment(s.pub, 1) == [ZERO];
  }

  lemma PublicKeys(a: int, b: int)
    ensures JointValue([[a], [b]], 0) == a + b
  {
    var gs: seq<Gammas> := [[a], [b]];
    assert gs[..1] == [[a]] && gs[..1][..0] == [];
    ConstantValue(a, 0);
    ConstantValue(b, 0);
    assert JointValue([], 0) == 0;
  }

  // ----- the runs

  lemma RestartedRun()
    ensures MemoryAfter(KeyperEnv(0), Created(0), Chain(), RestartAfter(START, END)).dkg
         == Some(Done(Ended(0, NO_COMMITMENT, 0)))
  {
    FirstBlock();
    RestartedDkg(KeyperEnv(0), Created(0), Chain(), START, END, FirstSaved());
    LoadedIs();
    AfterLoading();
  }

  lemma StraightRun()
    ensures MemoryAfter(KeyperEnv(1), Created(1), Chain(), [Step(END, true)]).dkg == Some(Done(Ended(1, Dealer(1), 2)))
  {
    StraightDkg(KeyperEnv(1), Created(1), Chain(), END);
    StraightThrough();
  }

  lemma TwoKeys(r: DKGResult, r': DKGResult)
    requires IsResult(Ended(0, NO_COMMITMENT, 0), r) && IsResult(Ended(1, Dealer(1), 2), r')
    ensures Succeeds(Ended(0, NO_COMMITMENT, 0)) && Succeeds(Ended(1, Dealer(1), 2))
    ensures r.publicKey == 1 && r'.publicKey == 3
  {
    OneCounts();
    BothCount();
    PublicKeys(1, 0);
    PublicKeys(1, 2);
  }

  /** Agreement fails: both keypers finish with a result, over one chain, and hold the
      public keys 1 and 3. */
  lemma RestartBreaksAgreement(r: DKGResult, r': DKGResult)
    requires IsResult(Ended(0, NO_COMMITMENT, 0), r) && IsResult(Ended(1, Dealer(1), 2), r')
    ensures MemoryAfter(KeyperEnv(0), Created(0), Chain(), RestartAfter(START, END)).dkg
         == Some(Done(Ended(0, NO_COMMITMENT, 0)))
    ensures MemoryAfter(KeyperEnv(1), Created(1), Chain(), [Step(END, true)]).dkg == Some(Done(Ended(1, Dealer(1), 2)))
    ensures Succeeds(Ended(0, NO_COMMITMENT, 0)) && Succeeds(Ended(1, Dealer(1), 2))
    ensures r.publicKey == 1 && r'.publicKey == 3
  {
    RestartedRun();
    StraightRun();
    TwoKeys(r, r');
  }

  /** It is the restart: the saved DKG was missing a commitment while dealing. */
  lemma NotBenign()
    ensures !Benign(KeyperEnv(0), Created(0), Chain(), RestartAfter(START, END))
  {
    FirstBlock();
    RestartedBenignly(KeyperEnv(0), Created(0), Chain(), START, END, FirstSaved());
    assert FirstSaved().pub.commitments[1].None?;
  }
}
