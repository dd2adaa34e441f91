/** Distributed key generation, as one keyper runs it: deal, accuse, apologize,
    finalize.

    `State` is the value of a keyper's DKG object and `Broadcast` the part of it
    that all keypers read off the chain. The functions on them specify the
    methods of the class `PureDKG`; the theorems about the protocol are proved
    about the functions. */
module DistributedKeyGeneration {
  import opened Modular
  import opened Outcome
  import opened Groups
  import opened Feldman
  import opened Keys

  datatype Phase = Off | Dealing | Accusing | Apologizing | Finalized

  function Rank(p: Phase): nat {
    match p
    case Off => 0
    case Dealing => 1
    case Accusing => 2
    case Apologizing => 3
    case Finalized => 4
  }

  datatype AccusationKey = AccusationKey(accuser: nat, accused: nat)

  datatype PolyEvalMsg = PolyEvalMsg(receiver: nat, eval: int)

  datatype ApologyMsg = ApologyMsg(key: AccusationKey, eval: int)

  /** What every keyper sees: commitments by dealer, accusations and apologies. */
  datatype Broadcast = Broadcast(
    q: int,
    numKeypers: nat,
    threshold: nat,
    commitments: seq<Option<Gammas>>,
    accusations: set<AccusationKey>,
    apologies: map<AccusationKey, int>)
  {
    ghost predicate Valid() {
      q >= 2 && |commitments| == numKeypers
    }
  }

  /** A keyper's DKG object as a value. */
  datatype State = State(
    phase: Phase,
    eon: nat,
    keyper: nat,
    polynomial: Option<Polynomial>,
    pub: Broadcast,
    evals: seq<Option<int>>)
  {
    ghost predicate Valid() {
      pub.Valid() && |evals| == pub.numKeypers && keyper < pub.numKeypers
    }
  }

  datatype DKGResult = DKGResult(
    eon: nat,
    numKeypers: nat,
    threshold: nat,
    keyper: nat,
    secretKeyShare: int,
    publicKey: G2,
    publicKeyShares: seq<G2>)

  function NewState(q: int, eon: nat, numKeypers: nat, threshold: nat, keyper: nat): State {
    State(Off, eon, keyper, None,
          Broadcast(q, numKeypers, threshold, seq(numKeypers, _ => None), {}, map[]),
          seq(numKeypers, _ => None))
  }

  // ----- incoming messages: the new state, or an error that leaves the state alone

  function CheckEonAndPhase(s: State, eon: nat, maxPhase: Phase): (r: Option<string>) {
    if s.eon != eon then Some("received msg for wrong eon")
    else if Rank(s.phase) > Rank(maxPhase) then Some("received msg in wrong phase")
    else None
  }

  function HandlePolyCommitment(s: State, eon: nat, sender: nat, gammas: Gammas): Result<State>
    requires s.Valid() && sender < s.pub.numKeypers
  {
    var e := CheckEonAndPhase(s, eon, Dealing);
    if e.Some? then Err(e.value)
    else if s.pub.commitments[sender].Some? then Err("received duplicate poly commitment msg")
    else if Degree(gammas) != DegreeFromThreshold(s.pub.threshold) then Err("received poly commitment with unexpected degree")
    else Ok(s.(pub := s.pub.(commitments := s.pub.commitments[sender := Some(gammas)])))
  }

  function HandlePolyEval(s: State, eon: nat, sender: nat, receiver: nat, eval: int): Result<State>
    requires s.Valid() && sender < s.pub.numKeypers
  {
    var e := CheckEonAndPhase(s, eon, Dealing);
    if e.Some? then Err(e.value)
    else if receiver != s.keyper then Err("received poly eval msg for another keyper")
    else if s.evals[sender].Some? then Err("received duplicate poly eval msg")
    else if !ValidEval(s.pub.q, eval) then Err("received invalid poly eval")
    else Ok(s.(evals := s.evals[sender := Some(eval)]))
  }

  function HandleAccusation(s: State, eon: nat, key: AccusationKey): Result<State> {
    var e := CheckEonAndPhase(s, eon, Accusing);
    if e.Some? then Err(e.value)
    else if key in s.pub.accusations then Err("received duplicate accusation")
    else Ok(s.(pub := s.pub.(accusations := s.pub.accusations + {key})))
  }

  function HandleApology(s: State, eon: nat, key: AccusationKey, eval: int): Result<State> {
    var e := CheckEonAndPhase(s, eon, Apologizing);
    if e.Some? then Err(e.value)
    else if key in s.pub.apologies then Err("received duplicate apology")
    else if !ValidEval(s.pub.q, eval) then Err("received apology with invalid poly eval")
    else Ok(s.(pub := s.pub.(apologies := s.pub.apologies[key := eval])))
  }

  /** The state after a message, whether it was accepted or not. */
  function After(s: State, r: Result<State>): State {
    if r.Ok? then r.value else s
  }

  // ----- corruption

  /** An apology of the dealer does not match its commitment. */
  ghost predicate BadApology(b: Broadcast, dealer: nat, key: AccusationKey)
    requires b.Valid() && dealer < b.numKeypers && b.commitments[dealer].Some?
  {
    && key in b.apologies && key.accused == dealer
    && !Verifies(b.q, key.accuser, b.apologies[key], b.commitments[dealer].value, b.threshold)
  }

  /** The dealer has not answered an accusation. */
  ghost predicate Unanswered(b: Broadcast, dealer: nat, key: AccusationKey) {
    key in b.accusations && key.accused == dealer && key !in b.apologies
  }

  /** A dealer is corrupt if it has not sent a commitment, has apologized with a
      wrong value, or owes an apology. */
  ghost predicate Corrupt(b: Broadcast, dealer: nat)
    requires b.Valid() && dealer < b.numKeypers
  {
    || b.commitments[dealer].None?
    || (exists key :: BadApology(b, dealer, key))
    || (exists key :: Unanswered(b, dealer, key))
  }

  /** The value received from a dealer: its apology to this keyper, if there is
      one, otherwise the message it sent. */
  function ReceivedEval(s: State, dealer: nat): Option<int>
    requires s.Valid() && dealer < s.pub.numKeypers
  {
    var key := AccusationKey(s.keyper, dealer);
    if key in s.pub.apologies then Some(s.pub.apologies[key]) else s.evals[dealer]
  }

  // ----- the result

  /** The commitment that counts for a dealer: zero for a corrupt one. */
  ghost function FinalCommitment(b: Broadcast, dealer: nat): Gammas
    requires b.Valid() && dealer < b.numKeypers
  {
    if Corrupt(b, dealer) then seq(b.threshold, _ => ZERO) else b.commitments[dealer].value
  }

  ghost function FinalCommitments(b: Broadcast, n: nat): (cs: seq<Gammas>)
    requires b.Valid() && n <= b.numKeypers
    ensures |cs| == n && forall d :: 0 <= d < n ==> cs[d] == FinalCommitment(b, d)
  {
    if n == 0 then [] else FinalCommitments(b, n - 1) + [FinalCommitment(b, n - 1)]
  }

  ghost function FinalEval(s: State, dealer: nat): int
    requires s.Valid() && dealer < s.pub.numKeypers
  {
    var e := ReceivedEval(s, dealer);
    if Corrupt(s.pub, dealer) || e.None? then 0 else e.value
  }

  ghost function FinalEvals(s: State, n: nat): (es: seq<int>)
    requires s.Valid() && n <= s.pub.numKeypers
    ensures |es| == n && forall d :: 0 <= d < n ==> es[d] == FinalEval(s, d)
  {
    if n == 0 then [] else FinalEvals(s, n - 1) + [FinalEval(s, n - 1)]
  }

  ghost function Participants(b: Broadcast, n: nat): nat
    requires b.Valid() && n <= b.numKeypers
  {
    if n == 0 then 0 else Participants(b, n - 1) + if Corrupt(b, n - 1) then 0 else 1
  }

  /** The dealer is fine by the chain, but the value this keyper got is not. */
  ghost predicate HiddenCorrupt(s: State, dealer: nat)
    requires s.Valid() && dealer < s.pub.numKeypers
  {
    && !Corrupt(s.pub, dealer)
    && (ReceivedEval(s, dealer).None?
        || !Verifies(s.pub.q, s.keyper, ReceivedEval(s, dealer).value,
                     s.pub.commitments[dealer].value, s.pub.threshold))
  }

  /** When the DKG yields a result for this keyper. */
  ghost predicate Succeeds(s: State)
    requires s.Valid()
  {
    && s.phase == Finalized
    && (forall d :: 0 <= d < s.pub.numKeypers ==> !HiddenCorrupt(s, d))
    && Participants(s.pub, s.pub.numKeypers) >= s.pub.threshold
  }

  /** The result as the source assembles it. */
  ghost predicate IsResult(s: State, r: DKGResult)
    requires s.Valid()
  {
    var n, cs := s.pub.numKeypers, FinalCommitments(s.pub, s.pub.numKeypers);
    && r.eon == s.eon && r.numKeypers == n && r.threshold == s.pub.threshold && r.keyper == s.keyper
    && r.secretKeyShare == SumOf(FinalEvals(s, n)) % s.pub.q
    && r.publicKey == JointValue(cs, 0) % s.pub.q
    && |r.publicKeyShares| == n
    && forall j :: 0 <= j < n ==> r.publicKeyShares[j] == JointValue(cs, KeyperX(j)) % s.pub.q
  }

  /** The dealers that are not corrupt. */
  ghost function TakingPart(b: Broadcast, n: nat): set<nat>
    requires b.Valid() && n <= b.numKeypers
  {
    set d | 0 <= d < n && !Corrupt(b, d)
  }

  /** The participants are the dealers that are not corrupt, each counted once. */
  lemma {:induction false} ParticipantsAre(b: Broadcast, n: nat)
    requires b.Valid() && n <= b.numKeypers
    ensures Participants(b, n) == |TakingPart(b, n)|
  {
    if n > 0 {
      ParticipantsAre(b, n - 1);
      assert TakingPart(b, n) == TakingPart(b, n - 1) + if Corrupt(b, n - 1) then {} else {n - 1};
    }
  }

  /** Success, without counting: the DKG is over, nothing wrong is hidden from this keyper,
      and at least `threshold` many dealers are not corrupt. */
  lemma SucceedsExactly(s: State)
    requires s.Valid()
    ensures Succeeds(s) <==>
      (s.phase == Finalized && (forall d :: 0 <= d < s.pub.numKeypers ==> !HiddenCorrupt(s, d))
       && |set d | 0 <= d < s.pub.numKeypers && !Corrupt(s.pub, d)| >= s.pub.threshold)
  {
    ParticipantsAre(s.pub, s.pub.numKeypers);
    assert TakingPart(s.pub, s.pub.numKeypers) == set d | 0 <= d < s.pub.numKeypers && !Corrupt(s.pub, d);
  }

  // ----- soundness

  /** The polynomial the keypers end up sharing. It is read off the chain alone. */
  ghost function SharedPolynomial(b: Broadcast): (F: Polynomial)
    requires b.Valid()
    requires forall d :: 0 <= d < b.numKeypers && !Corrupt(b, d) ==> |b.commitments[d].value| == b.threshold
    ensures |F| == b.threshold
  {
    JointPolynomial(FinalCommitments(b, b.numKeypers), b.threshold)
  }

  /** A result says that one polynomial with `threshold` coefficients is shared. */
  ghost predicate SharesOf(q: int, F: Polynomial, r: DKGResult)
    requires q > 0
  {
    && |F| == r.threshold
    && r.publicKey == PolyValue(F, 0) % q
    && |r.publicKeyShares| == r.numKeypers
    && (forall j :: 0 <= j < r.numKeypers ==> r.publicKeyShares[j] == PolyValue(F, KeyperX(j)) % q)
    && r.secretKeyShare == PolyValue(F, KeyperX(r.keyper)) % q
  }

  ghost predicate Matches(q: int, x: int, e: int, c: Gammas) {
    Cong(q, e, PolyValue(c, x))
  }

  /** Values that match their commitments one by one match them in total. */
  lemma {:induction false} SumsMatch(q: int, x: int, es: seq<int>, cs: seq<Gammas>)
    requires |es| == |cs| && forall d :: 0 <= d < |es| ==> Matches(q, x, es[d], cs[d])
    ensures Cong(q, SumOf(es), JointValue(cs, x))
  {
    if es == [] {
      CongRefl(q, 0);
    } else {
      var d := |es| - 1;
      SumsMatch(q, x, es[..d], cs[..d]);
      assert Matches(q, x, es[d], cs[d]);
      CongAdd(q, SumOf(es[..d]), JointValue(cs[..d], x), es[d], PolyValue(cs[d], x));
    }
  }

  /** Where the DKG succeeds, the value that counts agrees with the commitment that
      counts. */
  lemma EvalMatches(s: State, d: nat)
    requires s.Valid() && d < s.pub.numKeypers && !HiddenCorrupt(s, d)
    ensures Matches(s.pub.q, KeyperX(s.keyper), FinalEval(s, d), FinalCommitment(s.pub, d))
  {
    var q, x, c, e := s.pub.q, KeyperX(s.keyper), FinalCommitment(s.pub, d), FinalEval(s, d);
    if Corrupt(s.pub, d) {
      ZeroPolynomialValue(c, x);
      CongRefl(q, 0);
    } else {
      CongSym(q, PolyValue(c, x), e);
    }
  }

  /** Where the DKG succeeds, the values received agree with the commitments. */
  lemma EvalsMatchCommitments(s: State)
    requires s.Valid() && Succeeds(s)
    ensures var n := s.pub.numKeypers;
      Cong(s.pub.q, SumOf(FinalEvals(s, n)), JointValue(FinalCommitments(s.pub, n), KeyperX(s.keyper)))
  {
    var n := s.pub.numKeypers;
    forall d | 0 <= d < n
      ensures Matches(s.pub.q, KeyperX(s.keyper), FinalEval(s, d), FinalCommitment(s.pub, d))
    {
      EvalMatches(s, d);
    }
    SumsMatch(s.pub.q, KeyperX(s.keyper), FinalEvals(s, n), FinalCommitments(s.pub, n));
  }

  /** In a successful DKG every counted commitment has `threshold` coefficients. */
  lemma SuccessMeansFullDegree(s: State)
    requires s.Valid() && Succeeds(s)
    ensures forall d :: 0 <= d < s.pub.numKeypers && !Corrupt(s.pub, d) ==>
      |s.pub.commitments[d].value| == s.pub.threshold
  {
    forall d | 0 <= d < s.pub.numKeypers && !Corrupt(s.pub, d)
      ensures |s.pub.commitments[d].value| == s.pub.threshold
    {
      assert !HiddenCorrupt(s, d);
    }
  }

  /** Soundness for one keyper, whatever the dealers did: its result describes the
      polynomial determined by the chain. */
  lemma {:induction false} ResultShares(s: State, r: DKGResult)
    requires s.Valid() && Succeeds(s) && IsResult(s, r)
    ensures forall d :: 0 <= d < s.pub.numKeypers && !Corrupt(s.pub, d) ==>
      |s.pub.commitments[d].value| == s.pub.threshold
    ensures SharesOf(s.pub.q, SharedPolynomial(s.pub), r)
  {
    SuccessMeansFullDegree(s);
    var q, n, t := s.pub.q, s.pub.numKeypers, s.pub.threshold;
    var cs, F := FinalCommitments(s.pub, n), SharedPolynomial(s.pub);
    JointPolynomialValue(cs, t, 0);
    forall j | 0 <= j < n
      ensures r.publicKeyShares[j] == PolyValue(F, KeyperX(j)) % q
    {
      JointPolynomialValue(cs, t, KeyperX(j));
    }
    JointPolynomialValue(cs, t, KeyperX(s.keyper));
    EvalsMatchCommitments(s);
    ModOfCong(q, SumOf(FinalEvals(s, n)), JointValue(cs, KeyperX(s.keyper)));
  }

  /** DKG soundness under arbitrary dealers: keypers that share one broadcast view
      and succeed have the same public key and public key shares, and their secret
      shares lie on one polynomial with `threshold` coefficients. */
  lemma DKGSoundness(s1: State, r1: DKGResult, s2: State, r2: DKGResult)
    requires s1.Valid() && Succeeds(s1) && IsResult(s1, r1)
    requires s2.Valid() && Succeeds(s2) && IsResult(s2, r2)
    requires s1.pub == s2.pub
    ensures r1.publicKey == r2.publicKey && r1.publicKeyShares == r2.publicKeyShares
    ensures exists F: Polynomial :: SharesOf(s1.pub.q, F, r1) && SharesOf(s1.pub.q, F, r2)
  {
    ResultShares(s1, r1);
    ResultShares(s2, r2);
    assert SharesOf(s1.pub.q, SharedPolynomial(s1.pub), r1) && SharesOf(s1.pub.q, SharedPolynomial(s1.pub), r2);
  }

  // ----- honest dealers

  /** The dealer's commitment is that of p, every accusation against it is
      answered, and every apology in its name carries p's value. */
  ghost predicate HonestDealer(b: Broadcast, dealer: nat, p: Polynomial)
    requires b.Valid() && dealer < b.numKeypers
  {
    && |p| == b.threshold
    && b.commitments[dealer].Some? && CommitsTo(b.q, b.commitments[dealer].value, p)
    && (forall key :: key in b.accusations && key.accused == dealer ==> key in b.apologies)
    && (forall key :: key in b.apologies && key.accused == dealer ==>
          Cong(b.q, b.apologies[key], PolyValue(p, KeyperX(key.accuser))))
  }

  /** An honest dealer is never judged corrupt, whatever others accuse it of. */
  lemma HonestNeverCorrupt(b: Broadcast, dealer: nat, p: Polynomial)
    requires b.Valid() && dealer < b.numKeypers && HonestDealer(b, dealer, p)
    ensures !Corrupt(b, dealer)
  {
    var c := b.commitments[dealer].value;
    forall key | key in b.apologies && key.accused == dealer
      ensures !BadApology(b, dealer, key)
    {
      FeldmanExact(b.q, p, c, b.threshold, key.accuser, b.apologies[key]);
    }
  }

  ghost predicate HonestEval(s: State, dealer: nat, p: Polynomial)
    requires s.Valid() && dealer < s.pub.numKeypers
  {
    s.evals[dealer].Some? && Cong(s.pub.q, s.evals[dealer].value, PolyValue(p, KeyperX(s.keyper)))
  }

  lemma {:induction false} AllHonestParticipate(b: Broadcast, n: nat)
    requires b.Valid() && n <= b.numKeypers
    requires forall d :: 0 <= d < n ==> !Corrupt(b, d)
    ensures Participants(b, n) == n
  {
    if n > 0 {
      AllHonestParticipate(b, n - 1);
    }
  }

  /** If all dealers are honest and all messages have arrived, the DKG succeeds. */
  lemma AllHonestSucceeds(s: State, ps: seq<Polynomial>)
    requires s.Valid() && s.phase == Finalized && s.pub.threshold <= s.pub.numKeypers == |ps|
    requires forall d :: 0 <= d < |ps| ==> HonestDealer(s.pub, d, ps[d]) && HonestEval(s, d, ps[d])
    ensures Succeeds(s)
  {
    forall d | 0 <= d < |ps|
      ensures !Corrupt(s.pub, d) && !HiddenCorrupt(s, d)
    {
      HonestNeverCorrupt(s.pub, d, ps[d]);
      FeldmanExact(s.pub.q, ps[d], s.pub.commitments[d].value, s.pub.threshold,
                   s.keyper, ReceivedEval(s, d).value);
    }
    AllHonestParticipate(s.pub, s.pub.numKeypers);
  }

  // ----- the object

  /** Whether this keyper accuses a dealer. */
  ghost predicate Accuses(s: State, dealer: nat)
    requires s.Valid() && dealer < s.pub.numKeypers
  {
    && dealer != s.keyper
    && (s.evals[dealer].None? || s.pub.commitments[dealer].None?
        || !Verifies(s.pub.q, s.keyper, s.evals[dealer].value, s.pub.commitments[dealer].value, s.pub.threshold))
  }

  /** A keyper that has received an honest dealer's value does not accuse it. */
  lemma HonestNotAccused(s: State, dealer: nat, p: Polynomial)
    requires s.Valid() && dealer < s.pub.numKeypers
    requires HonestDealer(s.pub, dealer, p) && HonestEval(s, dealer, p)
    ensures !Accuses(s, dealer)
  {
    FeldmanExact(s.pub.q, p, s.pub.commitments[dealer].value, s.pub.threshold, s.keyper, s.evals[dealer].value);
  }

  /** The loop over the keypers' public key shares. */
  method PublicKeyShares(q: int, numKeypers: nat, cs: seq<Gammas>) returns (shares: seq<G2>)
    requires q > 0
    ensures |shares| == numKeypers && forall j :: 0 <= j < numKeypers ==> shares[j] == JointValue(cs, KeyperX(j)) % q
  {
    shares := [];
    for keyper := 0 to numKeypers
      invariant |shares| == keyper
      invariant forall j :: 0 <= j < keyper ==> shares[j] == JointValue(cs, KeyperX(j)) % q
    {
      var share := ComputeEonPublicKeyShare(q, keyper, cs);
      shares := shares + [share];
    }
  }

  class PureDKG {
    const q: int
    const eon: nat
    const numKeypers: nat
    const threshold: nat
    const keyper: nat
    var phase: Phase
    var polynomial: Option<Polynomial>
    var commitments: seq<Option<Gammas>>
    var evals: seq<Option<int>>
    var accusations: set<AccusationKey>
    var apologies: map<AccusationKey, int>

    ghost function View(): State
      reads this
    {
      State(phase, eon, keyper, polynomial,
            Broadcast(q, numKeypers, threshold, commitments, accusations, apologies), evals)
    }

    ghost predicate Valid()
      reads this
    {
      View().Valid()
    }

    constructor (q: int, eon: nat, numKeypers: nat, threshold: nat, keyper: nat)
      requires q >= 2 && keyper < numKeypers
      ensures Valid() && View() == NewState(q, eon, numKeypers, threshold, keyper)
    {
      this.q := q;
      this.eon := eon;
      this.numKeypers := numKeypers;
      this.threshold := threshold;
      this.keyper := keyper;
      phase := Off;
      polynomial := None;
      commitments := seq(numKeypers, _ => None);
      evals := seq(numKeypers, _ => None);
      accusations := {};
      apologies := map[];
    }

    /** Panics unless the phases are taken in order, so callers must do that. */
    method SetPhase(p: Phase)
      requires Rank(p) == Rank(phase) + 1
      modifies this`phase
      ensures phase == p
    {
      phase := p;
    }

    /** Deals a polynomial (chosen at random in the source): the commitment to
        broadcast, and the value of every other keyper. Its own value it keeps. */
    method StartPhase1Dealing(p: Polynomial) returns (gammas: Gammas, msgs: seq<PolyEvalMsg>)
      requires Valid() && phase == Off && evals[keyper].None?
      requires ValidPolynomial(q, p) && |p| == threshold
      modifies this
      ensures Valid()
      ensures View() == old(View()).(phase := Dealing, polynomial := Some(p),
                                     evals := old(evals)[keyper := Some(PolyValue(p, KeyperX(keyper)) % q)])
      ensures CommitsTo(q, gammas, p)
      ensures |msgs| == numKeypers - 1
      ensures forall i :: 0 <= i < |msgs| ==>
        && msgs[i].receiver == (if i < keyper then i else i + 1)
        && msgs[i].eval == PolyValue(p, KeyperX(msgs[i].receiver)) % q
    {
      SetPhase(Dealing);
      polynomial := Some(p);
      gammas := ComputeGammas(q, p);
      msgs := [];
      for receiver := 0 to numKeypers
        invariant phase == Dealing && polynomial == Some(p)
        invariant unchanged(`commitments) && unchanged(`accusations) && unchanged(`apologies)
        invariant evals == if receiver <= keyper then old(evals)
                           else old(evals)[keyper := Some(PolyValue(p, KeyperX(keyper)) % q)]
        invariant |msgs| == if receiver <= keyper then receiver else receiver - 1
        invariant forall i :: 0 <= i < |msgs| ==>
          && msgs[i].receiver == (if i < keyper then i else i + 1)
          && msgs[i].eval == PolyValue(p, KeyperX(msgs[i].receiver)) % q
      {
        var eval := EvalForKeyper(q, p, receiver);
        if receiver == keyper {
          var err := HandlePolyEvalMsg(eon, keyper, receiver, eval);
          assert err.None?;
        } else {
          msgs := msgs + [PolyEvalMsg(receiver, eval)];
        }
      }
    }

    /** Accuses exactly the dealers whose value is missing or does not verify. */
    method StartPhase2Accusing() returns (accused: seq<nat>)
      requires Valid() && phase == Dealing
      modifies this`phase
      ensures Valid() && View() == old(View()).(phase := Accusing)
      ensures forall d: nat :: d in accused <==> d < numKeypers && Accuses(View(), d)
      ensures forall i, j :: 0 <= i < j < |accused| ==> accused[i] < accused[j]
    {
      SetPhase(Accusing);
      accused := [];
      for dealer := 0 to numKeypers
        invariant Valid() && View() == old(View()).(phase := Accusing)
        invariant forall d: nat :: d in accused <==> d < dealer && Accuses(View(), d)
        invariant forall i :: 0 <= i < |accused| ==> accused[i] < dealer
        invariant forall i, j :: 0 <= i < j < |accused| ==> accused[i] < accused[j]
      {
        if dealer == keyper {
          continue;
        }
        var bad := evals[dealer].None? || commitments[dealer].None?;
        if !bad {
          var ok := VerifyPolyEval(q, keyper, evals[dealer].value, commitments[dealer].value, threshold);
          bad := !ok;
        }
        if bad {
          accused := accused + [dealer];
        }
      }
    }

    /** Answers every accusation against this keyper once, with the value of its
        own polynomial. The order follows the map and is not specified. */
    method StartPhase3Apologizing() returns (msgs: seq<ApologyMsg>)
      requires Valid() && phase == Accusing
      requires polynomial.Some? && ValidPolynomial(q, polynomial.value)
      modifies this`phase
      ensures Valid() && View() == old(View()).(phase := Apologizing)
      ensures forall key :: key in accusations && key.accused == keyper <==>
        exists i :: 0 <= i < |msgs| && msgs[i].key == key
      ensures forall i, j :: 0 <= i < j < |msgs| ==> msgs[i].key != msgs[j].key
      ensures forall i :: 0 <= i < |msgs| ==>
        msgs[i].eval == PolyValue(polynomial.value, KeyperX(msgs[i].key.accuser)) % q
    {
      SetPhase(Apologizing);
      msgs := [];
      var rest := accusations;
      while rest != {}
        invariant Valid() && View() == old(View()).(phase := Apologizing) && rest <= accusations
        invariant forall key :: key in accusations - rest && key.accused == keyper <==>
          exists i :: 0 <= i < |msgs| && msgs[i].key == key
        invariant forall i, j :: 0 <= i < j < |msgs| ==> msgs[i].key != msgs[j].key
        invariant forall i :: 0 <= i < |msgs| ==>
          msgs[i].eval == PolyValue(polynomial.value, KeyperX(msgs[i].key.accuser)) % q
        decreases rest
      {
        var key :| key in rest;
        rest := rest - {key};
        if key.accused == keyper {
          var eval := EvalForKeyper(q, polynomial.value, key.accuser);
          ghost var before := msgs;
          msgs := msgs + [ApologyMsg(key, eval)];
          assert msgs[|before|].key == key;
          assert forall i :: 0 <= i < |before| ==> msgs[i] == before[i];
        }
      }
    }

    method Finalize()
      requires Valid() && phase == Apologizing
      modifies this`phase
      ensures Valid() && View() == old(View()).(phase := Finalized)
    {
      SetPhase(Finalized);
    }

    method HandlePolyCommitmentMsg(msgEon: nat, sender: nat, gammas: Gammas) returns (err: Option<string>)
      requires Valid() && sender < numKeypers
      modifies this`commitments
      ensures Valid()
      ensures View() == After(old(View()), HandlePolyCommitment(old(View()), msgEon, sender, gammas))
      ensures err.None? <==> HandlePolyCommitment(old(View()), msgEon, sender, gammas).Ok?
    {
      err := CheckEonAndPhaseOf(msgEon, Dealing);
      if err.Some? {
        return;
      }
      if commitments[sender].Some? {
        return Some("received duplicate poly commitment msg");
      }
      if Degree(gammas) != DegreeFromThreshold(threshold) {
        return Some("received poly commitment with unexpected degree");
      }
      commitments := commitments[sender := Some(gammas)];
    }

    method HandlePolyEvalMsg(msgEon: nat, sender: nat, receiver: nat, eval: int) returns (err: Option<string>)
      requires Valid() && sender < numKeypers
      modifies this`evals
      ensures Valid()
      ensures View() == After(old(View()), HandlePolyEval(old(View()), msgEon, sender, receiver, eval))
      ensures err.None? <==> HandlePolyEval(old(View()), msgEon, sender, receiver, eval).Ok?
    {
      err := CheckEonAndPhaseOf(msgEon, Dealing);
      if err.Some? {
        return;
      }
      if receiver != keyper {
        return Some("received poly eval msg for another keyper");
      }
      if evals[sender].Some? {
        return Some("received duplicate poly eval msg");
      }
      if !ValidEval(q, eval) {
        return Some("received invalid poly eval");
      }
      evals := evals[sender := Some(eval)];
    }

    method HandleAccusationMsg(msgEon: nat, key: AccusationKey) returns (err: Option<string>)
      requires Valid()
      modifies this`accusations
      ensures Valid()
      ensures View() == After(old(View()), HandleAccusation(old(View()), msgEon, key))
      ensures err.None? <==> HandleAccusation(old(View()), msgEon, key).Ok?
    {
      err := CheckEonAndPhaseOf(msgEon, Accusing);
      if err.Some? {
        return;
      }
      if key in accusations {
        return Some("received duplicate accusation");
      }
      accusations := accusations + {key};
    }

    method HandleApologyMsg(msgEon: nat, key: AccusationKey, eval: int) returns (err: Option<string>)
      requires Valid()
      modifies this`apologies
      ensures Valid()
      ensures View() == After(old(View()), HandleApology(old(View()), msgEon, key, eval))
      ensures err.None? <==> HandleApology(old(View()), msgEon, key, eval).Ok?
    {
      err := CheckEonAndPhaseOf(msgEon, Apologizing);
      if err.Some? {
        return;
      }
      if key in apologies {
        return Some("received duplicate apology");
      }
      if !ValidEval(q, eval) {
        return Some("received apology with invalid poly eval");
      }
      apologies := apologies[key := eval];
    }

    method CheckEonAndPhaseOf(msgEon: nat, maxPhase: Phase) returns (err: Option<string>)
      ensures err == CheckEonAndPhase(View(), msgEon, maxPhase)
    {
      if eon != msgEon {
        return Some("received msg for wrong eon");
      }
      if Rank(phase) > Rank(maxPhase) {
        return Some("received msg in wrong phase");
      }
      return None;
    }

    /** Both map loops of the check, in any order of the maps' keys. */
    method IsCorrupt(dealer: nat) returns (corrupt: bool)
      requires Valid() && dealer < numKeypers
      ensures corrupt <==> Corrupt(View().pub, dealer)
    {
      ghost var b := View().pub;
      if commitments[dealer].None? {
        return true;
      }
      var c := commitments[dealer].value;
      var rest := apologies.Keys;
      while rest != {}
        invariant rest <= apologies.Keys
        invariant forall key :: key in apologies && key !in rest ==> !BadApology(b, dealer, key)
        decreases rest
      {
        var key :| key in rest;
        rest := rest - {key};
        if key.accused != dealer {
          continue;
        }
        var ok := VerifyPolyEval(q, key.accuser, apologies[key], c, threshold);
        if !ok {
          assert BadApology(b, dealer, key);
          return true;
        }
      }
      var open := accusations;
      while open != {}
        invariant open <= accusations
        invariant forall key :: key in accusations && key !in open ==> !Unanswered(b, dealer, key)
        decreases open
      {
        var key :| key in open;
        open := open - {key};
        if key.accused != dealer {
          continue;
        }
        if key !in apologies {
          assert Unanswered(b, dealer, key);
          return true;
        }
      }
      return false;
    }

    method PolyEval(dealer: nat) returns (r: Option<int>)
      requires Valid() && dealer < numKeypers
      ensures r == ReceivedEval(View(), dealer)
    {
      var rest := apologies.Keys;
      while rest != {}
        invariant rest <= apologies.Keys
        invariant AccusationKey(keyper, dealer) in apologies ==> AccusationKey(keyper, dealer) in rest
        decreases rest
      {
        var key :| key in rest;
        rest := rest - {key};
        if key.accuser == keyper && key.accused == dealer {
          return Some(apologies[key]);
        }
      }
      return evals[dealer];
    }

    /** What counts for one dealer: its commitment and value, or zeros if it is corrupt. A
        dealer whose value is wrong although nothing is known against it is an error. */
    method FinalOf(dealer: nat) returns (hidden: bool, corrupt: bool, c: Gammas, eval: int)
      requires Valid() && dealer < numKeypers
      ensures hidden <==> HiddenCorrupt(View(), dealer)
      ensures corrupt <==> Corrupt(View().pub, dealer)
      ensures !hidden ==> c == FinalCommitment(View().pub, dealer) && eval == FinalEval(View(), dealer)
    {
      corrupt := IsCorrupt(dealer);
      if corrupt {
        c := ZeroGammas(DegreeFromThreshold(threshold));
        return false, corrupt, c, 0;
      }
      c := commitments[dealer].value;
      var received := PolyEval(dealer);
      if received.None? {
        return true, corrupt, c, 0;
      }
      var ok := VerifyPolyEval(q, keyper, received.value, c, threshold);
      return !ok, corrupt, c, received.value;
    }

    /** The loop over the dealers, with the number of those that take part. */
    method FinalOfAll() returns (ok: bool, numParticipants: nat, cs: seq<Gammas>, es: seq<int>)
      requires Valid()
      ensures ok <==> forall d :: 0 <= d < numKeypers ==> !HiddenCorrupt(View(), d)
      ensures ok ==> numParticipants == Participants(View().pub, numKeypers)
      ensures ok ==> cs == FinalCommitments(View().pub, numKeypers) && es == FinalEvals(View(), numKeypers)
    {
      numParticipants, cs, es := 0, [], [];
      for dealer := 0 to numKeypers
        invariant cs == FinalCommitments(View().pub, dealer) && es == FinalEvals(View(), dealer)
        invariant numParticipants == Participants(View().pub, dealer)
        invariant forall d :: 0 <= d < dealer ==> !HiddenCorrupt(View(), d)
      {
        var hidden, corrupt, c, eval := FinalOf(dealer);
        if hidden {
          return false, numParticipants, cs, es;
        }
        if !corrupt {
          numParticipants := numParticipants + 1;
        }
        cs := cs + [c];
        es := es + [eval];
      }
      ok := true;
    }

    /** Succeeds exactly as `Succeeds` says, and then returns the result of
        `IsResult`. */
    method ComputeResult() returns (r: Result<DKGResult>)
      requires Valid()
      ensures r.Ok? <==> Succeeds(View())
      ensures r.Ok? ==> IsResult(View(), r.value)
    {
      if Rank(phase) < Rank(Finalized) {
        return Err("dkg is not finalized yet");
      }
      var ok, numParticipants, cs, es := FinalOfAll();
      if !ok {
        return Err("corrupt keyper not considered corrupt");
      }
      if numParticipants < threshold {
        return Err("too few keypers participated");
      }
      var shares := PublicKeyShares(q, numKeypers, cs);
      var eonSKShare := ComputeEonSecretKeyShare(q, es);
      var eonPK := ComputeEonPublicKey(q, cs);
      return Ok(DKGResult(eon, numKeypers, threshold, keyper, eonSKShare, eonPK, shares));
    }
  }
}
